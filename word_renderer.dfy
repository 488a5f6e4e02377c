/**
 * WordRendererUtils: turns the answer text into one image by rendering
 * every character into its own square ARGB bitmap and packing the bitmaps
 * side by side, each pulled left by its distance plus 2, so that
 * neighbouring glyphs overlap slightly on purpose.
 *
 * A glyph bitmap is a `Raster` value: once drawn, the code here only reads
 * it. The buffers the code fills (the blank-count table, the per-row gaps,
 * the pixel sample buffer) are arrays. Drawing a character with a font
 * under a random affine transform is not modelled: the rasteriser is the
 * parameter `paint`. The canvas is modelled by the drawImage calls made
 * onto it, in order.
 */
module WordRenderer {
  import opened Results
  import opened Layout

  /** One pixel of a TYPE_INT_ARGB image: the four samples getPixel yields. */
  datatype Pixel = Pixel(red: int, green: int, blue: int, alpha: int)

  /** A pixel whose four samples are all 0: fully transparent, no ink. */
  const Transparent: Pixel := Pixel(0, 0, 0, 0)

  function Samples(p: Pixel): seq<int>
  {
    [p.red, p.green, p.blue, p.alpha]
  }

  /** A BufferedImage of type TYPE_INT_ARGB, `height` rows of `width` pixels. */
  datatype Raster = Raster(width: nat, height: nat, pixels: seq<seq<Pixel>>)

  predicate WellFormed(img: Raster)
  {
    |img.pixels| == img.height && forall y :: 0 <= y < img.height ==> |img.pixels[y]| == img.width
  }

  predicate AllWellFormed(images: seq<Raster>)
  {
    forall k :: 0 <= k < |images| ==> WellFormed(images[k])
  }

  /** A pixel is ink when it is not fully transparent black. */
  predicate InkAt(img: Raster, y: int, x: int)
    requires WellFormed(img) && 0 <= y < img.height && 0 <= x < img.width
  {
    img.pixels[y][x] != Transparent
  }

  /** Ink is exactly "the four samples getPixel yields are not all 0". */
  lemma InkIffSamplesNonZero(p: Pixel)
    ensures p != Transparent <==> Samples(p) != [0, 0, 0, 0]
  {
    if Samples(p) == [0, 0, 0, 0] {
      assert p.red == Samples(p)[0] && p.green == Samples(p)[1] && p.blue == Samples(p)[2] && p.alpha == Samples(p)[3];
    }
  }

  /** result[y][0] after calculateBlankNum has scanned the first j columns of row y. */
  function LeftBlankAt(img: Raster, y: int, j: nat): int
    requires WellFormed(img) && 0 <= y < img.height && j <= img.width
  {
    if j == 0 then 0
    else
      var v := LeftBlankAt(img, y, j - 1);
      if InkAt(img, y, j - 1) && v == 0 then j - 1 else v
  }

  /** result[y][1] after calculateBlankNum has scanned the first j columns of row y. */
  function RightBlankAt(img: Raster, y: int, j: nat): int
    requires WellFormed(img) && 0 <= y < img.height && j <= img.width
  {
    if j == 0 then img.width
    else if InkAt(img, y, j - 1) then img.width - j
    else RightBlankAt(img, y, j - 1)
  }

  /** Row y of what calculateBlankNum computes for an image. */
  function MarginAt(img: Raster, y: int): Margin
    requires WellFormed(img) && 0 <= y < img.height
  {
    Margin(LeftBlankAt(img, y, img.width), RightBlankAt(img, y, img.width))
  }

  /** tempArray[y] of calculateDistanceBetweenChar2. */
  function GapAt(leftImage: Raster, rightImage: Raster, y: int): int
    requires WellFormed(leftImage) && WellFormed(rightImage) && 0 <= y < leftImage.height && y < rightImage.height
  {
    RowGap(MarginAt(leftImage, y), MarginAt(rightImage, y), leftImage.width)
  }

  /** `min` over the gaps of the first `count` rows. */
  function DistanceRows(leftImage: Raster, rightImage: Raster, count: nat): int
    requires WellFormed(leftImage) && WellFormed(rightImage)
    requires count <= leftImage.height <= rightImage.height
  {
    if count == 0 then IntMaxValue
    else
      var m := DistanceRows(leftImage, rightImage, count - 1);
      var g := GapAt(leftImage, rightImage, count - 1);
      if g < m then g else m
  }

  /** What calculateDistanceBetweenChar2 computes for two images. */
  function Distance(leftImage: Raster, rightImage: Raster): int
    requires WellFormed(leftImage) && WellFormed(rightImage)
    requires rightImage.height >= leftImage.height
  {
    DistanceRows(leftImage, rightImage, leftImage.height)
  }

  // The same quantities on ink masks, where Layout states their meaning.

  /** Ink mask of row y. */
  function InkRow(img: Raster, y: int): (ink: seq<bool>)
    requires WellFormed(img) && 0 <= y < img.height
    ensures |ink| == img.width
  {
    seq(img.width, x requires 0 <= x < img.width => InkAt(img, y, x))
  }

  function InkRows(img: Raster): (rows: seq<seq<bool>>)
    requires WellFormed(img)
    ensures |rows| == img.height
  {
    seq(img.height, y requires 0 <= y < img.height => InkRow(img, y))
  }

  /** The blank-count table of an image as Layout defines it on ink masks. */
  function BlankTable(img: Raster): seq<Margin>
    requires WellFormed(img)
  {
    Margins(InkRows(img), img.width)
  }

  lemma {:induction false} ScanIsLayoutScan(img: Raster, y: int, j: nat)
    requires WellFormed(img) && 0 <= y < img.height && j <= img.width
    ensures LeftBlankAt(img, y, j) == LeftBlank(InkRow(img, y)[..j])
    ensures RightBlankAt(img, y, j) == RightBlank(InkRow(img, y)[..j], img.width)
  {
    if j > 0 {
      ScanIsLayoutScan(img, y, j - 1);
      assert InkRow(img, y)[..j][..j - 1] == InkRow(img, y)[..j - 1];
    }
  }

  /** Row y of the scan is row y of the Layout table. */
  lemma MarginAtIsBlankTable(img: Raster, y: int)
    requires WellFormed(img) && 0 <= y < img.height
    ensures MarginAt(img, y) == BlankTable(img)[y]
  {
    ScanIsLayoutScan(img, y, img.width);
    assert InkRow(img, y)[..img.width] == InkRow(img, y);
  }

  lemma {:induction false} DistanceRowsIsPairDistance(leftImage: Raster, rightImage: Raster, count: nat)
    requires WellFormed(leftImage) && WellFormed(rightImage)
    requires count <= leftImage.height <= rightImage.height
    ensures DistanceRows(leftImage, rightImage, count)
            == PairDistance(BlankTable(leftImage)[..count], BlankTable(rightImage), leftImage.width)
  {
    if count > 0 {
      DistanceRowsIsPairDistance(leftImage, rightImage, count - 1);
      var lefts := BlankTable(leftImage);
      assert lefts[..count][..count - 1] == lefts[..count - 1];
      MarginAtIsBlankTable(leftImage, count - 1);
      MarginAtIsBlankTable(rightImage, count - 1);
    }
  }

  /** The image-level distance is Layout's distance of the two blank-count tables. */
  lemma DistanceIsPairDistance(leftImage: Raster, rightImage: Raster)
    requires WellFormed(leftImage) && WellFormed(rightImage)
    requires rightImage.height >= leftImage.height
    ensures Distance(leftImage, rightImage)
            == PairDistance(BlankTable(leftImage), BlankTable(rightImage), leftImage.width)
  {
    DistanceRowsIsPairDistance(leftImage, rightImage, leftImage.height);
    assert BlankTable(leftImage)[..leftImage.height] == BlankTable(leftImage);
  }

  /**
   * What the two blank counts of a row mean: the left count is the first
   * ink column after column 0 (0 when there is none, so ink in column 0 is
   * never seen), and the right count is the number of columns after the
   * last ink column (the full width when the row has no ink).
   */
  lemma BlankCountsLocateInk(img: Raster, y: int)
    requires WellFormed(img) && 0 <= y < img.height
    ensures var left := MarginAt(img, y).left;
            (left == 0 <==> forall x :: 0 < x < img.width ==> !InkAt(img, y, x)) &&
            (left != 0 ==> 0 < left < img.width && InkAt(img, y, left) && forall x :: 0 < x < left ==> !InkAt(img, y, x))
    ensures var right := MarginAt(img, y).right;
            ((forall x :: 0 <= x < img.width ==> !InkAt(img, y, x)) ==> right == img.width) &&
            ((exists x :: 0 <= x < img.width && InkAt(img, y, x)) ==>
               var c := img.width - 1 - right;
               0 <= c < img.width && InkAt(img, y, c) && forall x :: c < x < img.width ==> !InkAt(img, y, x))
  {
    var ink := InkRow(img, y);
    ScanIsLayoutScan(img, y, img.width);
    assert ink[..img.width] == ink;
    LeftBlankIsFirstInkAfterColumnZero(ink);
    RightBlankIsAfterLastInk(ink, img.width);
    assert forall x :: 0 <= x < img.width ==> (ink[x] <==> InkAt(img, y, x));
  }

  /**
   * What the distance measures on images: with the right image starting
   * `width - distance` columns after the left one, every ink pixel of the
   * right image lies strictly right of every ink pixel of the left image in
   * the same row, unless the right image has ink in column 0 of that row.
   * appendImages draws it 2 columns further left; see
   * PlacedNeighboursOverlapByAtMostOne.
   */
  lemma NeighboursDoNotCollide(leftImage: Raster, rightImage: Raster, y: int, a: int, b: int)
    requires WellFormed(leftImage) && WellFormed(rightImage) && rightImage.height >= leftImage.height
    requires 0 <= y < leftImage.height
    requires 0 <= a < leftImage.width && InkAt(leftImage, y, a)
    requires 0 <= b < rightImage.width && InkAt(rightImage, y, b) && !InkAt(rightImage, y, 0)
    ensures a < leftImage.width - Distance(leftImage, rightImage) + b
  {
    var lefts, rights := BlankTable(leftImage), BlankTable(rightImage);
    DistanceIsPairDistance(leftImage, rightImage);
    PairDistanceIsTightestRow(lefts, rights, leftImage.width);
    BlankCountsLocateInk(leftImage, y);
    BlankCountsLocateInk(rightImage, y);
    MarginAtIsBlankTable(leftImage, y);
    MarginAtIsBlankTable(rightImage, y);
  }

  /**
   * On the canvas appendImages produces, neighbouring glyphs overlap by
   * design: in every row where the right glyph has no ink in
   * column 0, its ink lands at most one column left of the left glyph's ink.
   */
  lemma PlacedNeighboursOverlapByAtMostOne(images: seq<Raster>, width: int, height: int, k: int, y: int, a: int, b: int)
    requires |images| > 0 && AllWellFormed(images) && RowsFit(images)
    requires 0 <= k < |images| - 1
    requires 0 <= y < images[k].height && y < images[k + 1].height
    requires 0 <= a < images[k].width && InkAt(images[k], y, a)
    requires 0 <= b < images[k + 1].width && InkAt(images[k + 1], y, b) && !InkAt(images[k + 1], y, 0)
    ensures var draws := Composition(images, width, height).draws;
            draws[k].x + a <= draws[k + 1].x + b + 1
  {
    var dists := Dists(images, |images| - 1);
    var start := StartX(|images|, images[0].width, Sum(dists), width);
    assert FitsAt(images, k + 1);
    NeighboursDoNotCollide(images[k], images[k + 1], y, a, b);
    RunSpacing(images, start, dists, k);
    assert dists[k] == Distance(images[k], images[k + 1]);
  }

  /** `min` of a filled tempArray is the distance. */
  lemma {:induction false} MinOfGapsIsDistance(leftImage: Raster, rightImage: Raster, gaps: seq<int>, count: nat)
    requires WellFormed(leftImage) && WellFormed(rightImage)
    requires count <= leftImage.height <= rightImage.height && count <= |gaps|
    requires forall y :: 0 <= y < count ==> gaps[y] == GapAt(leftImage, rightImage, y)
    ensures SeqMin(gaps[..count]) == DistanceRows(leftImage, rightImage, count)
  {
    if count > 0 {
      MinOfGapsIsDistance(leftImage, rightImage, gaps, count - 1);
      assert gaps[..count][..count - 1] == gaps[..count - 1];
    }
  }

  /** Raster.getPixel(x, y, samples): copies the 4 samples of one pixel into `samples`. */
  method GetPixel(img: Raster, x: int, y: int, samples: array<int>)
    requires WellFormed(img) && 0 <= y < img.height && 0 <= x < img.width
    requires samples.Length == 4
    modifies samples
    ensures samples[..] == Samples(img.pixels[y][x])
  {
    var p := img.pixels[y][x];
    samples[0], samples[1], samples[2], samples[3] := p.red, p.green, p.blue, p.alpha;
  }

  /** checkArray: false when either array is null or the lengths differ, else element-wise equality. */
  method CheckArray(arrayA: array?<int>, arrayB: array?<int>) returns (same: bool)
    ensures same <==> arrayA != null && arrayB != null && arrayA[..] == arrayB[..]
  {
    if arrayA == null || arrayB == null {
      return false;
    }
    if arrayA.Length != arrayB.Length {
      return false;
    }
    for i := 0 to arrayA.Length
      invariant arrayA[..i] == arrayB[..i]
    {
      if arrayA[i] != arrayB[i] {
        assert arrayA[..][i] != arrayB[..][i];
        return false;
      }
      assert arrayA[..i + 1] == arrayA[..i] + [arrayA[i]];
      assert arrayB[..i + 1] == arrayB[..i] + [arrayB[i]];
    }
    assert arrayA[..] == arrayA[..arrayA.Length];
    assert arrayB[..] == arrayB[..arrayB.Length];
    return true;
  }

  /**
   * calculateBlankNum: row i of the result holds [left blank count, right
   * blank count] of row i of the image, computed by scanning every row left
   * to right.
   */
  method CalculateBlankNum(image: Raster) returns (result: array2<int>)
    requires WellFormed(image)
    ensures fresh(result)
    ensures result.Length0 == image.height && result.Length1 == 2
    ensures forall y :: 0 <= y < image.height ==>
              result[y, 0] == MarginAt(image, y).left && result[y, 1] == MarginAt(image, y).right
  {
    var width, height := image.width, image.height;
    result := new int[height, 2];
    for i := 0 to height
      invariant forall k :: 0 <= k < i ==> result[k, 0] == 0 && result[k, 1] == width
    {
      result[i, 0] := 0;
      result[i, 1] := width;
    }
    var colorArray := new int[4];
    for i := 0 to height
      modifies result, colorArray
      invariant forall k :: 0 <= k < i ==> result[k, 0] == MarginAt(image, k).left && result[k, 1] == MarginAt(image, k).right
      invariant forall k :: i <= k < height ==> result[k, 0] == 0 && result[k, 1] == width
    {
      label RowStart:
      for j := 0 to width
        modifies result, colorArray
        invariant result[i, 0] == LeftBlankAt(image, i, j) && result[i, 1] == RightBlankAt(image, i, j)
        invariant forall k, c :: 0 <= k < height && k != i && 0 <= c < 2 ==> result[k, c] == old@RowStart(result[k, c])
      {
        GetPixel(image, j, i, colorArray);
        var zero := new int[] [0, 0, 0, 0];
        var blank := CheckArray(colorArray, zero);
        assert zero[..] == [0, 0, 0, 0];
        InkIffSamplesNonZero(image.pixels[i][j]);
        if !blank {
          if result[i, 0] == 0 {
            result[i, 0] := j;
          }
          result[i, 1] := width - j - 1;
        }
      }
    }
  }

  /** min: Integer.MAX_VALUE for an empty array, otherwise the smallest element. */
  method Min(items: array<int>) returns (result: int)
    ensures result == SeqMin(items[..])
    ensures result <= IntMaxValue
    ensures forall k :: 0 <= k < items.Length ==> result <= items[k]
  {
    result := IntMaxValue;
    for i := 0 to items.Length
      invariant result == SeqMin(items[..i])
    {
      assert items[..i + 1][..i] == items[..i];
      if items[i] < result {
        result := items[i];
      }
    }
    assert items[..items.Length] == items[..];
    SeqMinIsMinimum(items[..]);
  }

  /**
   * calculateDistanceBetweenChar2: per row of the left image, its right
   * blank count plus the right image's left blank count (or the left
   * image's width where that count is 0); the result is the smallest of
   * these. Reading row i of a right image with fewer rows throws.
   */
  method CalculateDistanceBetweenChar2(leftImage: Raster, rightImage: Raster) returns (r: Result<int>)
    requires WellFormed(leftImage) && WellFormed(rightImage)
    ensures rightImage.height < leftImage.height ==> r == Err(IndexOutOfBounds)
    ensures rightImage.height >= leftImage.height ==> r == Ok(Distance(leftImage, rightImage))
  {
    var left := CalculateBlankNum(leftImage);
    var right := CalculateBlankNum(rightImage);
    var tempArray := new int[leftImage.height];
    for i := 0 to left.Length0
      modifies tempArray
      invariant i <= right.Length0
      invariant forall k :: 0 <= k < i ==> tempArray[k] == GapAt(leftImage, rightImage, k)
    {
      if i >= right.Length0 {
        return Err(IndexOutOfBounds);
      }
      if right[i, 0] == 0 {
        tempArray[i] := left[i, 1] + leftImage.width;
      } else {
        tempArray[i] := left[i, 1] + right[i, 0];
      }
    }
    MinOfGapsIsDistance(leftImage, rightImage, tempArray[..], leftImage.height);
    assert tempArray[..][..leftImage.height] == tempArray[..];
    var m := Min(tempArray);
    r := Ok(m);
  }

  /** One drawImage(images[image], x, y, w, h, null) call. */
  datatype Draw = Draw(image: nat, x: int, y: int, w: int, h: int)

  /** A width x height ARGB canvas, the glyph images it was given and the draws made onto it, in order. */
  datatype Canvas = Canvas(width: int, height: int, images: seq<Raster>, draws: seq<Draw>)

  /** Image k has at least as many rows as its left neighbour, so no row lookup of that pair throws. */
  predicate FitsAt(images: seq<Raster>, k: int)
    requires 0 < k < |images|
  {
    images[k].height >= images[k - 1].height
  }

  predicate RowsFit(images: seq<Raster>)
  {
    forall k :: 0 < k < |images| ==> FitsAt(images, k)
  }

  /** The distance between image k and image k + 1. */
  function DistanceAt(images: seq<Raster>, k: int): int
    requires 0 <= k < |images| - 1 && AllWellFormed(images) && FitsAt(images, k + 1)
  {
    Distance(images[k], images[k + 1])
  }

  function Widths(images: seq<Raster>): (w: seq<int>)
    ensures |w| == |images|
  {
    seq(|images|, k requires 0 <= k < |images| => images[k].width)
  }

  /** Distances of the first m neighbouring pairs. */
  function Dists(images: seq<Raster>, m: nat): (d: seq<int>)
    requires m < |images| && AllWellFormed(images)
    requires forall k :: 0 < k <= m ==> FitsAt(images, k)
    ensures |d| == m
  {
    seq(m, k requires 0 <= k < m => DistanceAt(images, k))
  }

  /** The x positions of all glyphs. */
  function Xs(start: int, widths: seq<int>, dists: seq<int>): (xs: seq<int>)
    requires |dists| == |widths| - 1
    ensures |xs| == |widths|
  {
    seq(|widths|, k requires 0 <= k < |widths| => GlyphX(start, widths, dists, k))
  }

  /** Glyph k drawn at xs[k], at y = 0, with its own width and the first glyph's height. */
  function DrawsAt(images: seq<Raster>, xs: seq<int>): (d: seq<Draw>)
    requires |images| > 0 && |xs| == |images|
    ensures |d| == |images|
  {
    seq(|images|, k requires 0 <= k < |images| => Draw(k, xs[k], 0, images[k].width, images[0].height))
  }

  /** The draws of a run of glyphs whose first glyph starts at `start`, for the given distances. */
  function Run(images: seq<Raster>, start: int, dists: seq<int>): seq<Draw>
    requires |images| > 0 && |dists| == |images| - 1
  {
    DrawsAt(images, Xs(start, Widths(images), dists))
  }

  /** The run placed on a width x height canvas, starting where the source's centring puts it. */
  function Placed(images: seq<Raster>, width: int, height: int, dists: seq<int>): (c: Canvas)
    requires |images| > 0 && |dists| == |images| - 1
    ensures c.width == width && c.height == height && |c.draws| == |images|
  {
    Canvas(width, height, images, Run(images, StartX(|images|, images[0].width, Sum(dists), width), dists))
  }

  /** The canvas appendImages produces from the distances of the images' neighbouring pairs. */
  function Composition(images: seq<Raster>, width: int, height: int): Canvas
    requires |images| > 0 && AllWellFormed(images) && RowsFit(images)
  {
    Placed(images, width, height, Dists(images, |images| - 1))
  }

  /** The sum the first loop of appendImages has accumulated after `count` images. */
  function SumUpTo(images: seq<Raster>, count: nat): int
    requires count <= |images| && AllWellFormed(images)
    requires forall k :: 0 < k < count ==> FitsAt(images, k)
  {
    if count <= 1 then 0 else SumUpTo(images, count - 1) + DistanceAt(images, count - 2)
  }

  /** The loop's running sum over all images is the sum of the distances of all neighbouring pairs. */
  lemma {:induction false} SumUpToIsSumOfDists(images: seq<Raster>, count: nat)
    requires 1 <= count <= |images| && AllWellFormed(images)
    requires forall k :: 0 < k < count ==> FitsAt(images, k)
    ensures SumUpTo(images, count) == Sum(Dists(images, count - 1))
  {
    if count > 1 {
      SumUpToIsSumOfDists(images, count - 1);
      assert Dists(images, count - 1)[..count - 2] == Dists(images, count - 2);
    }
  }

  /**
   * The first loop of appendImages: the sum of the distances of all
   * neighbouring pairs (without the tightening constant). A pair whose right
   * image has fewer rows throws.
   */
  method SumDistances(images: seq<Raster>) returns (r: Result<int>)
    requires AllWellFormed(images)
    ensures !RowsFit(images) ==> r == Err(IndexOutOfBounds)
    ensures RowsFit(images) && |images| == 0 ==> r == Ok(0)
    ensures RowsFit(images) && |images| > 0 ==> r == Ok(Sum(Dists(images, |images| - 1)))
  {
    var d := 0;
    var i := 1;
    while i < |images|
      invariant 1 <= i && (i <= |images| || i == 1)
      invariant forall k :: 0 < k < i && k < |images| ==> FitsAt(images, k)
      invariant i <= |images| ==> d == SumUpTo(images, i)
      invariant |images| == 0 ==> d == 0
    {
      var distance := CalculateDistanceBetweenChar2(images[i - 1], images[i]);
      if distance.Err? {
        assert !FitsAt(images, i);
        return Err(distance.fault);
      }
      d := d + distance.value;
      i := i + 1;
    }
    if |images| > 0 {
      SumUpToIsSumOfDists(images, |images|);
    }
    r := Ok(d);
  }

  /**
   * The draws made and the next drawX after the first `count` glyphs,
   * following the second loop of appendImages step by step, for the given
   * distances of neighbouring pairs.
   */
  function Progress(images: seq<Raster>, start: int, dists: seq<int>, count: nat): (p: (seq<Draw>, int))
    requires 1 <= count <= |images| && |dists| == |images| - 1
    ensures |p.0| == count
  {
    if count == 1 then ([Draw(0, start, 0, images[0].width, images[0].height)], start + images[0].width)
    else
      var p := Progress(images, start, dists, count - 1);
      var distance := dists[count - 2] + 2;
      (p.0 + [Draw(count - 1, p.1 - distance, 0, images[count - 1].width, images[0].height)],
       p.1 + images[count - 1].width - distance)
  }

  /** One more iteration of the placement loop. */
  lemma ProgressStep(images: seq<Raster>, start: int, dists: seq<int>, count: nat)
    requires 1 <= count < |images| && |dists| == |images| - 1
    ensures var p := Progress(images, start, dists, count);
            var distance := dists[count - 1] + 2;
            Progress(images, start, dists, count + 1)
              == (p.0 + [Draw(count, p.1 - distance, 0, images[count].width, images[0].height)],
                  p.1 + images[count].width - distance)
  {
  }

  /** Step by step, the loop draws the run's first `count` glyphs and stops where the last one ends. */
  lemma {:induction false} ProgressIsRun(images: seq<Raster>, start: int, dists: seq<int>, count: nat)
    requires 1 <= count <= |images| && |dists| == |images| - 1
    ensures var xs := Xs(start, Widths(images), dists);
            Progress(images, start, dists, count).0 == DrawsAt(images, xs)[..count] &&
            Progress(images, start, dists, count).1 == xs[count - 1] + images[count - 1].width
  {
    var widths := Widths(images);
    var xs := Xs(start, widths, dists);
    var spec := DrawsAt(images, xs);
    if count == 1 {
      assert xs[0] == start;
      assert spec[..1] == [spec[0]];
    } else {
      var k := count - 1;
      ProgressIsRun(images, start, dists, k);
      var p := Progress(images, start, dists, k);
      var distance := dists[k - 1] + 2;
      assert widths[k - 1] == images[k - 1].width;
      assert xs[k] == xs[k - 1] + widths[k - 1] - distance;
      var next := Draw(k, p.1 - distance, 0, images[k].width, images[0].height);
      assert spec[k] == next;
      PrefixGrows(spec, k);
    }
  }

  /** After the last glyph, the loop has drawn the whole run. */
  lemma ProgressCompletesRun(images: seq<Raster>, start: int, dists: seq<int>)
    requires |images| > 0 && |dists| == |images| - 1
    ensures Progress(images, start, dists, |images|).0 == Run(images, start, dists)
  {
    var spec := DrawsAt(images, Xs(start, Widths(images), dists));
    ProgressIsRun(images, start, dists, |images|);
    assert spec[..|images|] == spec;
  }

  /**
   * Spacing of the run: the first glyph starts at `start`, and each further
   * glyph starts its distance plus 2 columns before the previous one ends.
   */
  lemma RunSpacing(images: seq<Raster>, start: int, dists: seq<int>, k: int)
    requires |images| > 0 && |dists| == |images| - 1 && 0 <= k < |images| - 1
    ensures Run(images, start, dists)[0].x == start
    ensures Run(images, start, dists)[k + 1].x == Run(images, start, dists)[k].x + images[k].width - (dists[k] + 2)
    ensures Run(images, start, dists)[k + 1].image == k + 1 && Run(images, start, dists)[k + 1].y == 0
    ensures Run(images, start, dists)[k + 1].w == images[k + 1].width && Run(images, start, dists)[k + 1].h == images[0].height
  {
    var widths := Widths(images);
    var xs := Xs(start, widths, dists);
    assert xs[0] == start;
    assert xs[k + 1] == xs[k] + widths[k] - (dists[k] + 2);
  }

  /** Extending a prefix by the next element gives the next prefix. */
  lemma PrefixGrows<T>(s: seq<T>, i: int)
    requires 0 <= i < |s|
    ensures s[..i + 1] == s[..i] + [s[i]]
  {
  }

  /**
   * The second loop of appendImages: the first glyph at `start`, every
   * further glyph its distance plus 2 to the left of where the previous one
   * ended; all at y = 0 with the first glyph's height.
   */
  method PlaceGlyphs(images: seq<Raster>, start: int) returns (draws: seq<Draw>)
    requires |images| > 0 && AllWellFormed(images) && RowsFit(images)
    ensures draws == Run(images, start, Dists(images, |images| - 1))
  {
    var n := |images|;
    ghost var dists := Dists(images, n - 1);
    var drawX := start;
    draws := [Draw(0, drawX, 0, images[0].width, images[0].height)];
    drawX := drawX + images[0].width;
    var index := 1;
    while index < n
      invariant 1 <= index <= n
      invariant (draws, drawX) == Progress(images, start, dists, index)
    {
      assert FitsAt(images, index);
      var dr := CalculateDistanceBetweenChar2(images[index - 1], images[index]);
      assert dr.value == dists[index - 1];
      var distance := dr.value + 2;
      ProgressStep(images, start, dists, index);
      draws := draws + [Draw(index, drawX - distance, 0, images[index].width, images[0].height)];
      drawX := drawX + images[index].width - distance;
      index := index + 1;
    }
    ProgressCompletesRun(images, start, dists);
  }

  /**
   * appendImages: the canvas is created first (non-positive sizes throw);
   * the summed pairwise distances fix the start, centring the run when it
   * is narrower than the canvas; images[0] is read (an empty array throws)
   * and the glyphs are drawn left to right.
   */
  method AppendImages(images: seq<Raster>, width: int, height: int) returns (r: Result<Canvas>)
    requires AllWellFormed(images)
    ensures width <= 0 || height <= 0 ==> r == Err(IllegalArgument)
    ensures width > 0 && height > 0 && (|images| == 0 || !RowsFit(images)) ==> r == Err(IndexOutOfBounds)
    ensures width > 0 && height > 0 && |images| > 0 && RowsFit(images) ==> r == Ok(Composition(images, width, height))
  {
    if width <= 0 || height <= 0 {
      return Err(IllegalArgument);
    }
    var sum := SumDistances(images);
    if sum.Err? {
      return Err(sum.fault);
    }
    if |images| == 0 {
      return Err(IndexOutOfBounds);
    }
    var n := |images|;
    var d := sum.value;
    var drawX := 0;
    if n * images[0].width - d < width {
      drawX := (width - (n * images[0].width - d)) / 2;
    }
    var draws := PlaceGlyphs(images, drawX);
    r := Ok(Canvas(width, height, images, draws));
  }

  /**
   * The size x size bitmap of character c at position k: pixel (y, x) is
   * what the rasteriser `paint` draws there with the font, the colour and
   * the random transform.
   */
  function Glyph(paint: (nat, char, nat, nat) -> Pixel, k: nat, c: char, size: nat): (g: Raster)
    ensures WellFormed(g) && g.width == size && g.height == size
    ensures forall y, x :: 0 <= y < size && 0 <= x < size ==> g.pixels[y][x] == paint(k, c, y, x)
  {
    Raster(size, size, seq(size, (y: nat) => seq(size, (x: nat) => paint(k, c, y, x))))
  }

  /** The glyphs renderWord draws for `word`, one per character, in order. */
  function WordGlyphs(word: string, size: nat, paint: (nat, char, nat, nat) -> Pixel): (g: seq<Raster>)
    ensures |g| == |word| && AllWellFormed(g) && RowsFit(g)
    ensures forall k :: 0 <= k < |word| ==> g[k] == Glyph(paint, k, word[k], size)
  {
    seq(|word|, (k: nat) requires k < |word| => Glyph(paint, k, word[k], size))
  }

  /**
   * renderWord: one height x height ARGB bitmap per character (a
   * non-positive height throws when the first one is created), then
   * appendImages onto a width x height canvas.
   */
  method RenderWord(word: string, width: int, height: int, paint: (nat, char, nat, nat) -> Pixel)
    returns (r: Result<Canvas>)
    ensures r.Ok? <==> |word| > 0 && width > 0 && height > 0
    ensures |word| > 0 && height <= 0 ==> r == Err(IllegalArgument)
    ensures |word| > 0 && height > 0 && width <= 0 ==> r == Err(IllegalArgument)
    ensures |word| == 0 ==> r == (if width <= 0 || height <= 0 then Err(IllegalArgument) else Err(IndexOutOfBounds))
    ensures r.Ok? ==> r.value == Composition(WordGlyphs(word, height, paint), width, height)
  {
    var images: seq<Raster> := [];
    for i := 0 to |word|
      invariant height > 0 || i == 0
      invariant images == WordGlyphs(word[..i], if height > 0 then height else 0, paint)
    {
      if height <= 0 {
        return Err(IllegalArgument);
      }
      images := images + [Glyph(paint, i, word[i], height)];
    }
    assert word[..|word|] == word;
    r := AppendImages(images, width, height);
  }

  /** scaleRange and shearRange, the bounds the scale and shear factors are drawn from. */
  const ScaleRange: seq<real> := [0.5, 1.0]
  const ShearRange: seq<real> := [0.0, 0.0]

  /** A draw u in [0, 1] scales a non-negative span to at most the span. */
  lemma ScaledSpanWithin(u: real, span: real)
    ensures 0.0 <= u <= 1.0 && 0.0 <= span ==> 0.0 <= u * span <= span
  {
    assert span - u * span == (1.0 - u) * span;
  }

  /**
   * getRandomInRange: a range that is missing or does not have exactly two
   * bounds throws; otherwise the draw `u` of Math.random() is mapped
   * linearly onto [range[0], range[1]].
   */
  function GetRandomInRange(range: Option<seq<real>>, u: real): (r: Result<real>)
    ensures r.Err? <==> range.None? || |range.value| != 2
    ensures r.Err? ==> r.fault == IllegalRange
    ensures r.Ok? && 0.0 <= u <= 1.0 && range.value[0] <= range.value[1] ==>
              range.value[0] <= r.value <= range.value[1]
  {
    if range.None? || |range.value| != 2 then Err(IllegalRange)
    else
      var span := range.value[1] - range.value[0];
      ScaledSpanWithin(u, span);
      Ok(u * span + range.value[0])
  }

  /** The configured ranges are well formed, and a zero-width shear range always yields 0. */
  lemma ConfiguredRangesAccepted(u: real)
    requires 0.0 <= u <= 1.0
    ensures GetRandomInRange(Some(ScaleRange), u).Ok?
    ensures 0.5 <= GetRandomInRange(Some(ScaleRange), u).value <= 1.0
    ensures GetRandomInRange(Some(ShearRange), u) == Ok(0.0)
  {
  }
}
