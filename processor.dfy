/** The garment category rule of the image processor: a three-way threshold on
    the aspect ratio width / height of the decoded image. The colour clustering
    and contour detection of the same processor are library calls and are not
    part of this model. */
module Processor {

  import opened RealOrder

  const Shirt := "shirt"
  const Pants := "pants"
  const FullBody := "full_body"

  /** Aspect ratio above which an image is taken for a shirt or top. */
  const ShirtRatio: real := 1.5
  /** Aspect ratio below which an image is taken for pants or a bottom. */
  const PantsRatio: real := 0.7

  /** The category predicted from the image dimensions. The ratio is a true
      quotient; the source divides without a guard, so a height of zero is
      excluded. */
  function PredictClothingType(width: nat, height: nat): (category: string)
    requires height > 0
    ensures category == Shirt || category == Pants || category == FullBody
  {
    var aspectRatio := width as real / height as real;
    if aspectRatio > ShirtRatio then Shirt
    else if aspectRatio < PantsRatio then Pants
    else FullBody
  }

  /** `a / b > 1.5` and `a / b < 0.7` are integer comparisons after cross-multiplying. */
  lemma RatioThresholds(width: nat, height: nat)
    requires height > 0
    ensures width as real / height as real > ShirtRatio <==> 2 * width > 3 * height
    ensures width as real / height as real < PantsRatio <==> 10 * width < 7 * height
  {
    var h := height as real;
    var w := width as real;
    QuotientCompare(w, h, ShirtRatio);
    QuotientCompare(w, h, PantsRatio);
    assert (2 * width) as real == 2.0 * w && (3 * height) as real == 3.0 * h;
    assert (10 * width) as real == 10.0 * w && (7 * height) as real == 7.0 * h;
  }

  /** The rule restated over integers: shirt exactly when 2w > 3h, pants exactly
      when 10w < 7h, full body otherwise (ratios 1.5 and 0.7 included). */
  lemma ClothingTypeByDimensions(width: nat, height: nat)
    requires height > 0
    ensures PredictClothingType(width, height) == Shirt <==> 2 * width > 3 * height
    ensures PredictClothingType(width, height) == Pants <==> 10 * width < 7 * height
    ensures PredictClothingType(width, height) == FullBody <==>
              2 * width <= 3 * height && 7 * height <= 10 * width
  {
    RatioThresholds(width, height);
  }

  /** Scaling both dimensions by the same positive factor leaves the category unchanged. */
  lemma ScaleInvariant(width: nat, height: nat, k: nat)
    requires height > 0 && k > 0
    ensures PredictClothingType(k * width, k * height) == PredictClothingType(width, height)
  {
    ClothingTypeByDimensions(width, height);
    ClothingTypeByDimensions(k * width, k * height);
    assert 2 * (k * width) == k * (2 * width);
    assert 3 * (k * height) == k * (3 * height);
    assert 10 * (k * width) == k * (10 * width);
    assert 7 * (k * height) == k * (7 * height);
    MulMonotone(k, 2 * width, 3 * height);
    MulMonotone(k, 3 * height, 2 * width);
    MulMonotone(k, 10 * width, 7 * height);
    MulMonotone(k, 7 * height, 10 * width);
  }

  lemma MulMonotone(k: nat, a: nat, b: nat)
    requires k > 0
    ensures a > b <==> k * a > k * b
  {
    if a > b {
      assert k * a == k * b + k * (a - b);
    } else {
      assert k * b == k * a + k * (b - a);
    }
  }

  /** The three dimension examples: 200x100 is a shirt, 100x200 pants, 150x150 full body. */
  lemma Examples()
    ensures PredictClothingType(200, 100) == Shirt
    ensures PredictClothingType(100, 200) == Pants
    ensures PredictClothingType(150, 150) == FullBody
    ensures PredictClothingType(150, 100) == FullBody
    ensures PredictClothingType(70, 100) == FullBody
  {
    ClothingTypeByDimensions(200, 100);
    ClothingTypeByDimensions(100, 200);
    ClothingTypeByDimensions(150, 150);
    ClothingTypeByDimensions(150, 100);
    ClothingTypeByDimensions(70, 100);
  }
}
