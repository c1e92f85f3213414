/**
 * The `SIFTExtractor` object: it holds one image, an "extracted yet?" flag,
 * the keypoints and the descriptor matrix. The dense feature detector and
 * the descriptor engine are library code and are passed in as functions;
 * loading the image and opening the output file are passed in as their
 * results.
 */
module SiftExtractor {
  import opened Outcomes
  import opened CppArith
  import opened DenseGrid
  import opened FeatureRecord

  /** The sampling methods a caller may ask for. */
  datatype Sampling = Dog | Dense

  /** The feature count `extract` uses when the caller gives none. */
  const DefaultFeatureNum: int := 100

  /**
   * A decoded image: its size in pixels and its pixel values, which only the
   * detector and the descriptor engine look at. An image that could not be
   * read is empty, 0 x 0.
   */
  datatype Image = Image(cols: nat, rows: nat, pixels: seq<int>)

  const EmptyImage: Image := Image(0, 0, [])

  /** The dense feature detector, built from its constructor arguments. */
  type Detector = (Image, DetectorConfig) -> seq<Keypoint>

  /**
   * The descriptor engine: it may drop keypoints it cannot describe, so it
   * returns the keypoints it kept with one descriptor row for each.
   */
  type DescriptorEngine = (Image, seq<Keypoint>) -> (seq<Keypoint>, seq<seq<real>>)

  /**
   * On an image with at least one pixel, the engine returns one descriptor
   * row of the SIFT length per keypoint it kept.
   */
  ghost predicate EngineConforms(compute: DescriptorEngine) {
    forall image: Image, keypoints | 1 <= image.cols && 1 <= image.rows ::
      Conforms(compute(image, keypoints).0, compute(image, keypoints).1)
  }

  /** Marks one keypoint on a picture: the circle of its size and the dot at its centre. */
  type Marker = (Image, Keypoint) -> Image

  /** Drawing in place: marking a keypoint never changes the picture's width or height. */
  ghost predicate KeepsSize(mark: Marker) {
    forall image: Image, kp: Keypoint ::
      mark(image, kp).cols == image.cols && mark(image, kp).rows == image.rows
  }

  /** The picture after marking `keypoints` on `image` one after the other, in order. */
  function Overlay(mark: Marker, image: Image, keypoints: seq<Keypoint>): Image
    decreases |keypoints|
  {
    if keypoints == [] then image
    else mark(Overlay(mark, image, keypoints[..|keypoints| - 1]), keypoints[|keypoints| - 1])
  }

  /**
   * A marked picture keeps the size of the original, so a dense extraction
   * after `save_image` computes the same grid as before it.
   */
  lemma {:induction false} OverlayKeepsSize(mark: Marker, image: Image, keypoints: seq<Keypoint>)
    requires KeepsSize(mark)
    ensures Overlay(mark, image, keypoints).cols == image.cols
    ensures Overlay(mark, image, keypoints).rows == image.rows
    decreases |keypoints|
  {
    if keypoints != [] {
      OverlayKeepsSize(mark, image, keypoints[..|keypoints| - 1]);
    }
  }

  /**
   * Marking `a` and then `b` is marking `a + b`: in particular a second
   * `save_image` draws every keypoint again on top of the first drawing.
   */
  lemma {:induction false} OverlayAppend(mark: Marker, image: Image, a: seq<Keypoint>, b: seq<Keypoint>)
    ensures Overlay(mark, image, a + b) == Overlay(mark, Overlay(mark, image, a), b)
    decreases |b|
  {
    if b == [] {
      assert a + b == a;
    } else {
      assert (a + b)[..|a + b| - 1] == a + b[..|b| - 1];
      OverlayAppend(mark, image, a, b[..|b| - 1]);
    }
  }

  /** What `save_feature` produces. */
  datatype FeatureOutput =
    | NotExtractedYet                             // message on the console, no file
    | CannotOpen(path: string)                    // message on the error stream, no file
    | Written(path: string, text: seq<Token>)

  /** What `save_image` produces. */
  datatype PictureOutput =
    | NoPicture                                   // message on the console, no file
    | Picture(path: string, image: Image)

  /** Extracting from an image that failed to load never reaches the detector. */
  lemma UnloadedImageCannotBeSampled(featureNum: int)
    ensures Plan(EmptyImage.cols, EmptyImage.rows, featureNum)
            == Failure(if featureNum == 0 then DivisionByZero else ZeroStep)
  {
  }

  class Extractor {
    var imageFileName: string
    var extraction: bool
    var refImage: Image
    var procImage: Image
    var keypoints: seq<Keypoint>
    var descriptors: seq<seq<real>>

    /**
     * One descriptor row per keypoint, and nothing is held before an
     * extraction has completed.
     */
    ghost predicate Valid()
      reads this
    {
      && Conforms(keypoints, descriptors)
      && (!extraction ==> keypoints == [] && descriptors == [])
    }

    /**
     * `loaded` is what reading the file produced (`EmptyImage` on failure).
     * The gray-scale copy is never made: the early return after the load
     * check is unconditional.
     */
    constructor (name: string, loaded: Image)
      ensures Valid()
      ensures imageFileName == name && refImage == loaded
      ensures !extraction && keypoints == [] && descriptors == []
      ensures procImage == EmptyImage
    {
      imageFileName := name;
      extraction := false;
      refImage := loaded;
      procImage := EmptyImage;
      keypoints := [];
      descriptors := [];
    }

    /** Runs the requested sampling method. */
    method Extract(kernel: Sampling, detect: Detector, compute: DescriptorEngine,
                   featureNum: int := DefaultFeatureNum)
      returns (fault: Option<Fault>)
      requires Valid() && EngineConforms(compute)
      modifies this`keypoints, this`descriptors, this`extraction
      ensures Valid()
      ensures kernel == Dog ==> fault == None && unchanged(this)
      ensures kernel == Dense ==>
        var plan := Plan(refImage.cols, refImage.rows, featureNum);
        && (plan.Failure? ==> fault == Some(plan.error) && unchanged(this))
        && (plan.Success? ==>
              && fault == None && extraction
              && (keypoints, descriptors) == compute(refImage, detect(refImage, Config(plan.value))))
    {
      match kernel
      case Dog =>
        ExtractUsingDog(featureNum);
        fault := None;
      case Dense =>
        fault := ExtractUsingDense(featureNum, detect, compute);
    }

    /** The DoG method is not implemented: it does nothing. */
    method ExtractUsingDog(featureNum: int)
      ensures unchanged(this)
    {
    }

    /**
     * Dense sampling: the grid parameters depend on the image size and the
     * requested count alone; the detector's keypoints are described and both
     * are stored, and the flag is set. A computation the C++ code leaves
     * undefined is reported as its fault and changes nothing.
     */
    method ExtractUsingDense(featureNum: int, detect: Detector, compute: DescriptorEngine)
      returns (fault: Option<Fault>)
      requires Valid() && EngineConforms(compute)
      modifies this`keypoints, this`descriptors, this`extraction
      ensures Valid()
      ensures var plan := Plan(refImage.cols, refImage.rows, featureNum);
        && (plan.Failure? ==> fault == Some(plan.error) && unchanged(this))
        && (plan.Success? ==>
              && fault == None && extraction
              && (keypoints, descriptors) == compute(refImage, detect(refImage, Config(plan.value))))
    {
      var plan := Plan(refImage.cols, refImage.rows, featureNum);
      if plan.Failure? {
        return Some(plan.error);
      }
      keypoints := detect(refImage, Config(plan.value));
      var described := compute(refImage, keypoints);
      keypoints, descriptors := described.0, described.1;
      extraction := true;
      fault := None;
    }

    /**
     * Writes the count and descriptor size, then one line per keypoint with
     * its four fields and its truncated descriptor values. Nothing is
     * written before an extraction, nor when the file cannot be opened
     * (`isOpen` is whether opening it succeeded).
     */
    method SaveFeature(fileName: string, isOpen: bool) returns (out: FeatureOutput)
      requires Valid()
      ensures !extraction ==> out == NotExtractedYet
      ensures extraction && !isOpen ==> out == CannotOpen(fileName)
      ensures extraction && isOpen ==> out == Written(fileName, FeatureText(keypoints, descriptors))
    {
      if !extraction {
        return NotExtractedYet;
      }
      if !isOpen {
        return CannotOpen(fileName);
      }
      var text := HeaderLine(|keypoints|);
      var keypointIndex := 0;
      while keypointIndex < |keypoints|
        invariant 0 <= keypointIndex <= |keypoints|
        invariant text == HeaderLine(|keypoints|) + KeypointLines(keypoints, descriptors, keypointIndex)
      {
        ghost var before := text;
        var kp := keypoints[keypointIndex];
        text := text + [Fixed(kp.x), Tab, Fixed(kp.y), Tab, Fixed(kp.size), Tab, Fixed(kp.angle), Tab];
        var dimIndex := 0;
        while dimIndex < DescriptorSize
          invariant 0 <= dimIndex <= DescriptorSize
          invariant text == before + KeypointFields(kp) + DescriptorFields(descriptors[keypointIndex], dimIndex)
        {
          text := text + [Int(TruncToInt(descriptors[keypointIndex][dimIndex])), Tab];
          dimIndex := dimIndex + 1;
        }
        text := text + [Newline];
        keypointIndex := keypointIndex + 1;
      }
      out := Written(fileName, text);
    }

    /**
     * After an extraction, marks every keypoint on the reference image itself,
     * in keypoint order, and writes that image under `<fileName>_sift.png`.
     * A later dense extraction reads the marked image.
     */
    method SaveImage(fileName: string, mark: Marker) returns (out: PictureOutput)
      requires Valid() && KeepsSize(mark)
      modifies this`refImage
      ensures Valid()
      ensures refImage.cols == old(refImage.cols) && refImage.rows == old(refImage.rows)
      ensures !extraction ==> out == NoPicture && refImage == old(refImage)
      ensures extraction ==>
        && refImage == Overlay(mark, old(refImage), keypoints)
        && out == Picture(fileName + "_sift.png", refImage)
    {
      if !extraction {
        return NoPicture;
      }
      var keypointIndex := 0;
      while keypointIndex < |keypoints|
        invariant 0 <= keypointIndex <= |keypoints|
        invariant refImage == Overlay(mark, old(refImage), keypoints[..keypointIndex])
      {
        assert keypoints[..keypointIndex + 1][..keypointIndex] == keypoints[..keypointIndex];
        refImage := mark(refImage, keypoints[keypointIndex]);
        keypointIndex := keypointIndex + 1;
      }
      assert keypoints[..keypointIndex] == keypoints;
      OverlayKeepsSize(mark, old(refImage), keypoints);
      out := Picture(fileName + "_sift.png", refImage);
    }
  }
}
