/**
 * Image size reduction (`compress_image` in utils/anime_search.py).
 *
 * The imaging library is not modelled. Its four operations (decode, convert
 * to RGB, JPEG encode, resample) are carried by a `Library` value of total
 * functions, and an operation that raises returns `None`. Nothing is claimed
 * about what they produce: the model is about the order in which encodings
 * are tried and which one is kept.
 */
module Imaging {
  import opened Wrappers

  newtype byte = b: int | 0 <= b < 256
  type Bytes = seq<byte>

  const MIB := 1024 * 1024
  /** Default byte ceiling of `compress_image`. */
  const MAX_IMAGE_SIZE := 10 * MIB

  datatype Mode = RGB | RGBA | P | LA | L | CMYK | OtherMode

  /** A decoded raster: colour mode, size, and opaque pixel data. */
  datatype Image = Image(mode: Mode, width: nat, height: nat, raster: Bytes)

  /** The imaging operations used, each returning `None` when it raises. */
  datatype Library = Library(
    open: Bytes -> Option<Image>,
    toRgb: Image -> Option<Image>,
    saveJpeg: (Image, int) -> Option<Bytes>,
    resize: (Image, nat, nat) -> Option<Image>)

  /** Modes that `compress_image` flattens to RGB before encoding. */
  const COMPRESS_FLATTENED: set<Mode> := {RGBA, P, LA}
  /** JPEG qualities tried first, in this order. */
  const QUALITIES: seq<int> := [85, 70, 55, 40]
  /** Scale factors 0.8, 0.6, 0.4, as percentages, tried after every quality. */
  const SCALE_PERCENTS: seq<nat> := [80, 60, 40]
  /** JPEG quality used for every downscaled attempt. */
  const SCALED_QUALITY := 70

  /** One encoding attempt: a quality on the full image, or a downscale at SCALED_QUALITY. */
  datatype Step = Quality(quality: int) | Scale(percent: nat)

  /** All attempts in the order `compress_image` makes them. */
  const STEPS: seq<Step> :=
    [Quality(85), Quality(70), Quality(55), Quality(40), Scale(80), Scale(60), Scale(40)]

  /**
   * Decoding, with the conversion to RGB when the decoded mode is in `modes`;
   * `None` when either step raises. An image in any other mode is used as
   * decoded.
   */
  function Decode(data: Bytes, modes: set<Mode>, lib: Library): (r: Option<Image>)
    ensures lib.open(data).None? ==> r.None?
    ensures lib.open(data).Some? && lib.open(data).value.mode !in modes ==> r == lib.open(data)
    ensures lib.open(data).Some? && lib.open(data).value.mode in modes ==> r == lib.toRgb(lib.open(data).value)
  {
    match lib.open(data)
    case None => None
    case Some(image) => if image.mode in modes then lib.toRgb(image) else Some(image)
  }

  /** Width or height scaled by `percent` and truncated to a whole number of pixels. */
  function Scaled(length: nat, percent: nat): (r: nat)
    ensures r * 100 <= length * percent < (r + 1) * 100
    ensures percent <= 100 ==> r <= length
  {
    length * percent / 100
  }

  /**
   * The bytes one attempt produces, or `None` when encoding or resampling
   * raises: a quality step encodes the image itself; a scale step resamples
   * it to the truncated scaled size and encodes that at SCALED_QUALITY.
   */
  function Attempt(image: Image, step: Step, lib: Library): (r: Option<Bytes>)
    ensures step.Quality? ==> r == lib.saveJpeg(image, step.quality)
    ensures step.Scale? ==>
      var resized := lib.resize(image, Scaled(image.width, step.percent), Scaled(image.height, step.percent));
      (resized.None? ==> r.None?) && (resized.Some? ==> r == lib.saveJpeg(resized.value, SCALED_QUALITY))
  {
    match step
    case Quality(q) => lib.saveJpeg(image, q)
    case Scale(p) =>
      match lib.resize(image, Scaled(image.width, p), Scaled(image.height, p))
      case None => None
      case Some(resized) => lib.saveJpeg(resized, SCALED_QUALITY)
  }

  predicate Fits(image: Image, step: Step, maxSize: int, lib: Library)
  {
    Attempt(image, step, lib).Some? && |Attempt(image, step, lib).value| <= maxSize
  }

  /** The attempt completed but its output is over the ceiling, so the next one is tried. */
  predicate Overflows(image: Image, step: Step, maxSize: int, lib: Library)
  {
    Attempt(image, step, lib).Some? && |Attempt(image, step, lib).value| > maxSize
  }

  /** Attempt `k` is the first that fits: every earlier one completed and overflowed. */
  predicate ChosenAt(image: Image, steps: seq<Step>, k: int, maxSize: int, lib: Library)
  {
    && 0 <= k < |steps|
    && Fits(image, steps[k], maxSize, lib)
    && forall j :: 0 <= j < k ==> Overflows(image, steps[j], maxSize, lib)
  }

  /** Attempt `k` raises and every earlier one completed and overflowed. */
  predicate RaisesAt(image: Image, steps: seq<Step>, k: int, maxSize: int, lib: Library)
  {
    && 0 <= k < |steps|
    && Attempt(image, steps[k], lib).None?
    && forall j :: 0 <= j < k ==> Overflows(image, steps[j], maxSize, lib)
  }

  /**
   * The attempts of `steps` made one after another: the first output within
   * `maxSize` is returned; if an attempt raises, or none fits, `original` is.
   */
  function FirstFit(image: Image, steps: seq<Step>, maxSize: int, lib: Library, original: Bytes): (r: Bytes)
    ensures r == original || |r| <= maxSize
    decreases |steps|
  {
    if steps == [] then original
    else
      match Attempt(image, steps[0], lib)
      case None => original
      case Some(output) =>
        if |output| <= maxSize then output else FirstFit(image, steps[1..], maxSize, lib, original)
  }

  lemma {:induction false} FirstFitTakesFirstFit(image: Image, steps: seq<Step>, k: int, maxSize: int, lib: Library, original: Bytes)
    requires ChosenAt(image, steps, k, maxSize, lib)
    ensures FirstFit(image, steps, maxSize, lib, original) == Attempt(image, steps[k], lib).value
    decreases k
  {
    if k > 0 {
      assert Overflows(image, steps[0], maxSize, lib);
      assert forall j :: 0 <= j < k - 1 ==> steps[1..][j] == steps[j + 1];
      FirstFitTakesFirstFit(image, steps[1..], k - 1, maxSize, lib, original);
    }
  }

  lemma {:induction false} FirstFitAbortsOnRaise(image: Image, steps: seq<Step>, k: int, maxSize: int, lib: Library, original: Bytes)
    requires RaisesAt(image, steps, k, maxSize, lib)
    ensures FirstFit(image, steps, maxSize, lib, original) == original
    decreases k
  {
    if k > 0 {
      assert Overflows(image, steps[0], maxSize, lib);
      assert forall j :: 0 <= j < k - 1 ==> steps[1..][j] == steps[j + 1];
      FirstFitAbortsOnRaise(image, steps[1..], k - 1, maxSize, lib, original);
    }
  }

  lemma {:induction false} FirstFitAllOverflow(image: Image, steps: seq<Step>, maxSize: int, lib: Library, original: Bytes)
    requires forall j :: 0 <= j < |steps| ==> Overflows(image, steps[j], maxSize, lib)
    ensures FirstFit(image, steps, maxSize, lib, original) == original
    decreases |steps|
  {
    if steps != [] {
      assert Overflows(image, steps[0], maxSize, lib);
      assert forall j :: 0 <= j < |steps| - 1 ==> steps[1..][j] == steps[j + 1];
      FirstFitAllOverflow(image, steps[1..], maxSize, lib, original);
    }
  }

  /** Whatever FirstFit returns other than `original` is the output of the first attempt that fits. */
  lemma {:induction false} FirstFitSource(image: Image, steps: seq<Step>, maxSize: int, lib: Library, original: Bytes)
    ensures var r := FirstFit(image, steps, maxSize, lib, original);
      r == original ||
      exists k :: ChosenAt(image, steps, k, maxSize, lib) && Attempt(image, steps[k], lib) == Some(r)
    decreases |steps|
  {
    var r := FirstFit(image, steps, maxSize, lib, original);
    if steps != [] && r != original {
      var output := Attempt(image, steps[0], lib).value;
      if |output| <= maxSize {
        assert ChosenAt(image, steps, 0, maxSize, lib);
      } else {
        FirstFitSource(image, steps[1..], maxSize, lib, original);
        var k :| ChosenAt(image, steps[1..], k, maxSize, lib) && Attempt(image, steps[1..][k], lib) == Some(r);
        assert forall j :: 1 <= j < k + 1 ==> steps[j] == steps[1..][j - 1];
        assert ChosenAt(image, steps, k + 1, maxSize, lib);
      }
    }
  }

  /**
   * `compress_image(data, maxSize)`: data within the ceiling is returned as
   * is; otherwise the image is decoded (flattened to RGB for RGBA, P and LA)
   * and STEPS are tried in order. Any exception returns `data`.
   */
  function Compressed(data: Bytes, maxSize: int, lib: Library): (r: Bytes)
    ensures |data| <= maxSize ==> r == data
    ensures r == data || |r| <= maxSize
  {
    if |data| <= maxSize then data
    else
      match Decode(data, COMPRESS_FLATTENED, lib)
      case None => data
      case Some(image) => FirstFit(image, STEPS, maxSize, lib, data)
  }

  /**
   * A result other than the input is the first attempt that fits, and when
   * it is a downscaled attempt all four qualities were tried and overflowed.
   */
  lemma CompressedSource(data: Bytes, maxSize: int, lib: Library)
    ensures var r := Compressed(data, maxSize, lib);
      r == data ||
      (&& |data| > maxSize
       && Decode(data, COMPRESS_FLATTENED, lib).Some?
       && var image := Decode(data, COMPRESS_FLATTENED, lib).value;
          exists k ::
            && ChosenAt(image, STEPS, k, maxSize, lib)
            && Attempt(image, STEPS[k], lib) == Some(r)
            && (STEPS[k].Scale? ==>
                  forall i :: 0 <= i < |QUALITIES| ==> Overflows(image, Quality(QUALITIES[i]), maxSize, lib)))
  {
    var r := Compressed(data, maxSize, lib);
    if r != data {
      var image := Decode(data, COMPRESS_FLATTENED, lib).value;
      FirstFitSource(image, STEPS, maxSize, lib, data);
      var k :| ChosenAt(image, STEPS, k, maxSize, lib) && Attempt(image, STEPS[k], lib) == Some(r);
      if STEPS[k].Scale? {
        assert k >= |QUALITIES|;
        forall i | 0 <= i < |QUALITIES|
          ensures Overflows(image, Quality(QUALITIES[i]), maxSize, lib)
        {
          assert STEPS[i] == Quality(QUALITIES[i]);
        }
      }
    }
  }

  /** Over the ceiling, the first attempt (in STEPS order) that fits is returned. */
  lemma CompressedTakesFirstFit(data: Bytes, maxSize: int, lib: Library, k: int)
    requires |data| > maxSize
    requires Decode(data, COMPRESS_FLATTENED, lib).Some?
    requires ChosenAt(Decode(data, COMPRESS_FLATTENED, lib).value, STEPS, k, maxSize, lib)
    ensures Compressed(data, maxSize, lib) == Attempt(Decode(data, COMPRESS_FLATTENED, lib).value, STEPS[k], lib).value
  {
    FirstFitTakesFirstFit(Decode(data, COMPRESS_FLATTENED, lib).value, STEPS, k, maxSize, lib, data);
  }

  /** An exception (in decoding or in an attempt reached) or no fitting attempt gives back the input. */
  lemma CompressedFallsBack(data: Bytes, maxSize: int, lib: Library)
    requires |data| > maxSize
    requires
      || Decode(data, COMPRESS_FLATTENED, lib).None?
      || (exists k :: RaisesAt(Decode(data, COMPRESS_FLATTENED, lib).value, STEPS, k, maxSize, lib))
      || (forall j :: 0 <= j < |STEPS| ==> Overflows(Decode(data, COMPRESS_FLATTENED, lib).value, STEPS[j], maxSize, lib))
    ensures Compressed(data, maxSize, lib) == data
  {
    if Decode(data, COMPRESS_FLATTENED, lib).Some? {
      var image := Decode(data, COMPRESS_FLATTENED, lib).value;
      if k :| RaisesAt(image, STEPS, k, maxSize, lib) {
        FirstFitAbortsOnRaise(image, STEPS, k, maxSize, lib, data);
      } else {
        FirstFitAllOverflow(image, STEPS, maxSize, lib, data);
      }
    }
  }

  /**
   * When nothing fits the input is returned even if a smaller attempt was
   * produced: here every attempt gives 20 bytes, the ceiling is 10 and the
   * 100-byte input comes back.
   */
  lemma NotTheSmallestAttempt()
    ensures
      var lib := Library(
        (data: Bytes) => Some(Image(RGB, 100, 100, [])),
        (image: Image) => Some(image),
        (image: Image, quality: int) => Some(seq(20, _ => 0 as byte)),
        (image: Image, w: nat, h: nat) => Some(image));
      var data := seq(100, _ => 1 as byte);
      && (forall j :: 0 <= j < |STEPS| ==> |Attempt(Image(RGB, 100, 100, []), STEPS[j], lib).value| < |data|)
      && Compressed(data, 10, lib) == data
  {
    var lib := Library(
      (data: Bytes) => Some(Image(RGB, 100, 100, [])),
      (image: Image) => Some(image),
      (image: Image, quality: int) => Some(seq(20, _ => 0 as byte)),
      (image: Image, w: nat, h: nat) => Some(image));
    var data := seq(100, _ => 1 as byte);
    CompressedFallsBack(data, 10, lib);
  }

  /** The imperative `compress_image`: two loops with early returns. */
  method CompressImage(data: Bytes, maxSize: int, lib: Library) returns (r: Bytes)
    ensures r == Compressed(data, maxSize, lib)
  {
    if |data| <= maxSize {
      return data;
    }
    var decoded := lib.open(data);
    if decoded.None? {
      return data;
    }
    var image := decoded.value;
    if image.mode in COMPRESS_FLATTENED {
      var converted := lib.toRgb(image);
      if converted.None? {
        return data;
      }
      image := converted.value;
    }
    for i := 0 to |QUALITIES|
      invariant FirstFit(image, STEPS[i..], maxSize, lib, data) == Compressed(data, maxSize, lib)
    {
      assert STEPS[i..][0] == Quality(QUALITIES[i]);
      var output := lib.saveJpeg(image, QUALITIES[i]);
      if output.None? {
        return data;
      }
      if |output.value| <= maxSize {
        return output.value;
      }
      assert STEPS[i..][1..] == STEPS[i + 1..];
    }
    var width, height := image.width, image.height;
    for i := 0 to |SCALE_PERCENTS|
      invariant FirstFit(image, STEPS[|QUALITIES| + i..], maxSize, lib, data) == Compressed(data, maxSize, lib)
    {
      assert STEPS[|QUALITIES| + i..][0] == Scale(SCALE_PERCENTS[i]);
      var resized := lib.resize(image, Scaled(width, SCALE_PERCENTS[i]), Scaled(height, SCALE_PERCENTS[i]));
      if resized.None? {
        return data;
      }
      var output := lib.saveJpeg(resized.value, SCALED_QUALITY);
      if output.None? {
        return data;
      }
      if |output.value| <= maxSize {
        return output.value;
      }
      assert STEPS[|QUALITIES| + i..][1..] == STEPS[|QUALITIES| + i + 1..];
    }
    return data;
  }
}
