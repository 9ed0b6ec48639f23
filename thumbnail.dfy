/** The shape decisions of `create_thumbnail` (the same code in utils.py and
    embedly/utils.py): how the decoded array is re-arranged to height, width and
    channels, which channel is kept, and the size the thumbnail is resized to.
    Pixel values are not modelled, only the array shapes. */
module Thumbnail {
  import opened Outcomes

  /** The shape of the array `cv2.imread` returns: two or three axes. */
  datatype Shape = Shape2(d0: nat, d1: nat) | Shape3(d0: nat, d1: nat, d2: nat)

  /** A pixel-last shape: height, width, channels. */
  datatype Axes = Axes(h: nat, w: nat, c: nat)

  /** Height and width handed to `cv2.resize`. */
  datatype Size = Size(h: nat, w: nat)

  datatype ThumbnailError =
    | ImageNotFound                  // `FileNotFoundError` when the decode gave `None`
    | UnsupportedChannels(n: nat)    // the BGR-to-RGB conversion accepts 3 or 4 channels only
    | ChannelOutOfRange(k: int)      // `image[:, :, k]` with no such channel

  /** The first-axis threshold below which the code keeps the array as it is. */
  const ChannelThreshold: nat := 4

  /** The axis re-arrangement as the code does it: a first axis smaller than 4
      keeps the shape, any other shape is transposed with axes (1, 2, 0). */
  function Arrange(d0: nat, d1: nat, d2: nat): (x: Axes)
    ensures multiset{x.h, x.w, x.c} == multiset{d0, d1, d2}
  {
    if d0 < ChannelThreshold then Axes(d0, d1, d2) else Axes(d1, d2, d0)
  }

  /** The arrangement the comment beside it describes: a small first axis is a
      channel count, and such a channel-first array is moved to pixel-last. */
  function IntendedArrange(d0: nat, d1: nat, d2: nat): (x: Axes)
    ensures multiset{x.h, x.w, x.c} == multiset{d0, d1, d2}
  {
    if d0 < ChannelThreshold then Axes(d1, d2, d0) else Axes(d0, d1, d2)
  }

  /** `cv2.cvtColor(..., COLOR_BGR2RGB)` on an arranged array: the last axis must
      hold 3 or 4 channels, and the result has 3. */
  function ConvertBgrToRgb(x: Axes): (r: Result<Axes, ThumbnailError>)
  {
    if x.c == 3 || x.c == 4 then Ok(Axes(x.h, x.w, 3)) else Err(UnsupportedChannels(x.c))
  }

  /** The single-channel check and the colour conversion, with the code's
      arrangement: a 2-D array becomes 3 identical channels. */
  function ToRgb(s: Shape): (r: Result<Axes, ThumbnailError>)
  {
    match s
    case Shape2(d0, d1) => Ok(Axes(d0, d1, 3))
    case Shape3(d0, d1, d2) => ConvertBgrToRgb(Arrange(d0, d1, d2))
  }

  /** The same step with the arrangement the comment describes. */
  function IntendedToRgb(s: Shape): (r: Result<Axes, ThumbnailError>)
  {
    match s
    case Shape2(d0, d1) => Ok(Axes(d0, d1, 3))
    case Shape3(d0, d1, d2) => ConvertBgrToRgb(IntendedArrange(d0, d1, d2))
  }

  /** The channel NumPy reads for the index `k` on an axis of length `c`: a
      non-negative index counts from the front, a negative one from the back,
      and an index past either end has no channel (IndexError). */
  function ChannelIndex(c: nat, k: int): (j: Option<nat>)
    ensures j.Some? <==> -(c as int) <= k < c
    ensures j.Some? ==> j.value < c && j.value == (k + c) % c
  {
    if k < 0 then
      if k + c >= 0 then Some(k + c) else None
    else if k < c then Some(k)
    else None
  }

  /** `image[:, :, k]` followed by the gray-to-RGB conversion: the kept
      channel is copied into three. */
  function SelectChannel(x: Axes, chan: Option<int>): (r: Result<Axes, ThumbnailError>)
  {
    match chan
    case None => Ok(x)
    case Some(k) =>
      match ChannelIndex(x.c, k)
      case None => Err(ChannelOutOfRange(k))
      case Some(_) => Ok(Axes(x.h, x.w, 3))
  }

  /** The resize decision, with exact integer floor in place of `int(w * (m / h))`.
      The branch structure is the source's: resize only when a side exceeds the
      limit, the taller image fixes its height, every other one (ties included)
      fixes its width. */
  function ResizeTarget(h: nat, w: nat, maxSize: nat): (r: Size)
    ensures r.h <= maxSize && r.w <= maxSize
    ensures r.h <= h && r.w <= w
    ensures r == Size(h, w) <==> h <= maxSize && w <= maxSize
  {
    if h > maxSize || w > maxSize then
      if h > w then Size(maxSize, Scaled(w, h, maxSize))
      else Size(Scaled(h, w, maxSize), maxSize)
    else Size(h, w)
  }

  /** `int(a * (m / d))` for the shorter side `a` of an image whose longer
      side `d` exceeds `m`, with exact truncation: at most both `m` and `a`. */
  function Scaled(a: nat, d: nat, m: nat): (q: nat)
    requires a <= d && m < d
    ensures q <= m && q <= a
  {
    ScaledAtMost(a, m, d);
    ScaledAtMost(m, a, d);
    assert m * a == a * m;
    a * m / d
  }

  /** The shape of the array `create_thumbnail` writes, or the exception it
      raises, from the decoded shape (`None` when the decode failed). */
  function Plan(image: Option<Shape>, maxSize: nat, chan: Option<int>): (r: Result<Axes, ThumbnailError>)
    ensures image.None? ==> r == Err(ImageNotFound)
    ensures r.Ok? ==> r.value.c == 3 && r.value.h <= maxSize && r.value.w <= maxSize
    ensures r.Ok? ==> image.Some? && ToRgb(image.value).Ok? &&
                      r.value.h <= ToRgb(image.value).value.h && r.value.w <= ToRgb(image.value).value.w
  {
    match image
    case None => Err(ImageNotFound)
    case Some(s) =>
      match ToRgb(s)
      case Err(e) => Err(e)
      case Ok(x) => Finish(x, maxSize, chan)
  }

  /** The pipeline with the arrangement the comment describes. */
  function PlanIntended(image: Option<Shape>, maxSize: nat, chan: Option<int>): (r: Result<Axes, ThumbnailError>)
    ensures image.None? ==> r == Err(ImageNotFound)
    ensures r.Ok? ==> r.value.c == 3 && r.value.h <= maxSize && r.value.w <= maxSize
    ensures r.Ok? ==> image.Some? && IntendedToRgb(image.value).Ok? &&
                      r.value.h <= IntendedToRgb(image.value).value.h && r.value.w <= IntendedToRgb(image.value).value.w
  {
    match image
    case None => Err(ImageNotFound)
    case Some(s) =>
      match IntendedToRgb(s)
      case Err(e) => Err(e)
      case Ok(x) => Finish(x, maxSize, chan)
  }

  /** Channel pick and resize of an RGB array; height and width are read before
      the channel pick, as the source does. */
  function Finish(x: Axes, maxSize: nat, chan: Option<int>): (r: Result<Axes, ThumbnailError>)
  {
    match SelectChannel(x, chan)
    case Err(e) => Err(e)
    case Ok(y) =>
      var size := ResizeTarget(x.h, x.w, maxSize);
      Ok(Axes(size.h, size.w, y.c))
  }

  // ---------------------------------------------------------------------------
  // Properties of the resize decision

  /** Truncating division of `a * m` by `d` leaves a remainder in `[0, d)`. */
  lemma FloorRemainder(a: nat, m: nat, d: nat)
    requires d > 0
    ensures 0 <= a * m - (a * m / d) * d < d
  {
  }

  /** Scaling `a <= d` by `m / d` with truncation gives at most `m`. */
  lemma ScaledAtMost(a: nat, m: nat, d: nat)
    requires 0 < d && a <= d
    ensures 0 <= a * m / d <= m
  {
    var q := a * m / d;
    FloorRemainder(a, m, d);
    assert q * d <= a * m <= d * m;
  }

  /** An image that fits the box is left at its size (no upscaling). */
  lemma {:induction false} FitsIsUnchanged(h: nat, w: nat, maxSize: nat)
    requires h <= maxSize && w <= maxSize
    ensures ResizeTarget(h, w, maxSize) == Size(h, w)
  {
  }

  /** A taller image that exceeds the box gets height `maxSize` and the width
      scaled by truncation; the aspect ratio is kept up to that truncation. */
  lemma TallerFixesHeight(h: nat, w: nat, maxSize: nat)
    requires h > w && (h > maxSize || w > maxSize)
    ensures var r := ResizeTarget(h, w, maxSize);
      && r.h == maxSize
      && r.w == w * maxSize / h
      && r.w <= maxSize
      && 0 <= maxSize * w - r.w * h < h
  {
    ScaledAtMost(w, maxSize, h);
    FloorRemainder(w, maxSize, h);
    assert maxSize * w == w * maxSize;
  }

  /** Any other image that exceeds the box (ties included) gets width `maxSize`
      and the height scaled by truncation. */
  lemma WiderFixesWidth(h: nat, w: nat, maxSize: nat)
    requires w >= h && (h > maxSize || w > maxSize)
    ensures var r := ResizeTarget(h, w, maxSize);
      && r.w == maxSize
      && r.h == h * maxSize / w
      && r.h <= maxSize
      && 0 <= maxSize * h - r.h * w < w
      && (h == w ==> r.h == maxSize)
  {
    ScaledAtMost(h, maxSize, w);
    FloorRemainder(h, maxSize, w);
    assert maxSize * h == h * maxSize;
    if h == w {
      assert h * maxSize - (h * maxSize / w) * w < w;
      assert h * maxSize == maxSize * w;
      assert (h * maxSize / w) * w > maxSize * w - w;
      assert (h * maxSize / w) * w > (maxSize - 1) * w;
    }
  }

  /** A resized thumbnail has its longer side equal to `maxSize`. */
  lemma ResizeBounds(h: nat, w: nat, maxSize: nat)
    ensures var r := ResizeTarget(h, w, maxSize);
      r == Size(h, w) || (if r.h < r.w then r.w else r.h) == maxSize
  {
    if h > maxSize || w > maxSize {
      if h > w {
        TallerFixesHeight(h, w, maxSize);
      } else {
        WiderFixesWidth(h, w, maxSize);
      }
    }
  }

  /** Planning a thumbnail of a thumbnail changes nothing. */
  lemma ResizeIdempotent(h: nat, w: nat, maxSize: nat)
    ensures var r := ResizeTarget(h, w, maxSize);
      ResizeTarget(r.h, r.w, maxSize) == r
  {
    ResizeBounds(h, w, maxSize);
  }

  // ---------------------------------------------------------------------------
  // Properties of the whole pipeline

  /** A failed decode raises `FileNotFoundError`, whatever the other arguments. */
  lemma NotFoundIsReported(maxSize: nat, chan: Option<int>)
    ensures Plan(None, maxSize, chan) == Err(ImageNotFound)
    ensures PlanIntended(None, maxSize, chan) == Err(ImageNotFound)
  {
  }

  /** Which axes become height and width, and which axis the colour conversion
      takes as the channel count, for each kind of decoded shape. */
  lemma PlanLayout(s: Shape, maxSize: nat)
    ensures var r := Plan(Some(s), maxSize, None);
      match s
      case Shape2(a, b) =>
        r == Ok(Axes(ResizeTarget(a, b, maxSize).h, ResizeTarget(a, b, maxSize).w, 3))
      case Shape3(a, b, c) =>
        if a < 4 then
          (r.Ok? <==> c == 3 || c == 4)
          && (r.Ok? ==> r.value == Axes(ResizeTarget(a, b, maxSize).h, ResizeTarget(a, b, maxSize).w, 3))
        else
          (r.Ok? <==> a == 4)
          && (r.Ok? ==> r.value == Axes(ResizeTarget(b, c, maxSize).h, ResizeTarget(b, c, maxSize).w, 3))
  {
  }

  /** Selecting a channel never changes the size of the thumbnail and yields an
      RGB array; channel indices outside `[-3, 3)` raise. */
  lemma ChannelPickKeepsSize(image: Option<Shape>, maxSize: nat, k: int)
    ensures var plain := Plan(image, maxSize, None);
      var picked := Plan(image, maxSize, Some(k));
      && (plain.Err? ==> picked == plain)
      && (plain.Ok? && -3 <= k < 3 ==> picked == plain)
      && (plain.Ok? && !(-3 <= k < 3) ==> picked == Err(ChannelOutOfRange(k)))
  {
    match image
    case None =>
    case Some(s) =>
      match ToRgb(s)
      case Err(_) =>
      case Ok(x) =>
        assert x.c == 3;
  }

  // ---------------------------------------------------------------------------
  // The arrangement rule against its comment

  /** As written, an ordinary channel-last colour image taller than 4 rows is
      transposed so that its height lands on the channel axis, and the colour
      conversion rejects it. */
  lemma AsWrittenRejectsChannelLast(h: nat, w: nat, c: nat, maxSize: nat, chan: Option<int>)
    requires h > 4 && (c == 3 || c == 4)
    ensures Plan(Some(Shape3(h, w, c)), maxSize, chan) == Err(UnsupportedChannels(h))
  {
  }

  /** As written, a channel-first array with 3 channels is not transposed, so
      its width is taken as the channel count. */
  lemma AsWrittenRejectsChannelFirst(h: nat, w: nat, maxSize: nat, chan: Option<int>)
    requires w != 3 && w != 4
    ensures Plan(Some(Shape3(3, h, w)), maxSize, chan) == Err(UnsupportedChannels(w))
  {
  }

  /** A 100 x 100 RGB image, the shape `cv2.imread` gives for a colour JPEG. */
  lemma AsWrittenRejectsRgbPhoto()
    ensures Plan(Some(Shape3(100, 100, 3)), 256, None) == Err(UnsupportedChannels(100))
  {
  }

  /** With the arrangement its comment describes, both a channel-last colour
      image and a 3-channel channel-first array are sized by their height and
      width and come out as RGB. */
  lemma IntendedAcceptsBothLayouts(h: nat, w: nat, c: nat, maxSize: nat)
    requires h >= 4 && (c == 3 || c == 4)
    ensures var size := ResizeTarget(h, w, maxSize);
      && PlanIntended(Some(Shape3(h, w, c)), maxSize, None) == Ok(Axes(size.h, size.w, 3))
      && PlanIntended(Some(Shape3(3, h, w)), maxSize, None) == Ok(Axes(size.h, size.w, 3))
  {
  }

  /** The arrangement the comment describes puts the small axis last for both
      layouts it distinguishes. */
  lemma IntendedArrangePutsChannelsLast(a: nat, b: nat, c: nat)
    requires c < ChannelThreshold <= a
    ensures IntendedArrange(a, b, c) == Axes(a, b, c)
    ensures IntendedArrange(c, a, b) == Axes(a, b, c)
  {
  }

  // ---------------------------------------------------------------------------
  // The step-by-step procedure

  /** The output directory as seen by `create_thumbnail`: the shape of the image
      written at each output path. */
  class ThumbnailWriter {
    var written: map<string, Axes>

    constructor ()
      ensures written == map[]
    {
      written := map[];
    }

    /** `create_thumbnail(input, output, max_size, chan_to_save)` on an image
        whose decode gave `image`. The image is written only on success. */
    method CreateThumbnail(image: Option<Shape>, outputPath: string, maxSize: nat, chan: Option<int>)
      returns (r: Result<Axes, ThumbnailError>)
      modifies this
      ensures r == Plan(image, maxSize, chan)
      ensures r.Ok? ==> written == old(written)[outputPath := r.value]
      ensures r.Err? ==> written == old(written)
    {
      if image.None? {
        return Err(ImageNotFound);
      }
      var shape := image.value;
      var rgb: Axes;
      if shape.Shape2? {
        rgb := Axes(shape.d0, shape.d1, 3);
      } else {
        var arranged := if shape.d0 < ChannelThreshold then Axes(shape.d0, shape.d1, shape.d2)
                        else Axes(shape.d1, shape.d2, shape.d0);
        if arranged.c != 3 && arranged.c != 4 {
          return Err(UnsupportedChannels(arranged.c));
        }
        rgb := Axes(arranged.h, arranged.w, 3);
      }
      assert ToRgb(shape) == Ok(rgb);
      var h, w := rgb.h, rgb.w;
      var channels := rgb.c;
      if chan.Some? {
        if !(-(channels as int) <= chan.value < channels) {
          return Err(ChannelOutOfRange(chan.value));
        }
        channels := 3;
      }
      assert SelectChannel(rgb, chan) == Ok(Axes(h, w, channels));
      var newH: nat, newW: nat := h, w;
      if h > maxSize || w > maxSize {
        if h > w {
          ScaledAtMost(w, maxSize, h);
          newH := maxSize;
          newW := w * maxSize / h;
        } else {
          ScaledAtMost(h, maxSize, w);
          newW := maxSize;
          newH := h * maxSize / w;
        }
      }
      assert Size(newH, newW) == ResizeTarget(h, w, maxSize);
      var thumbnail := Axes(newH, newW, channels);
      written := written[outputPath := thumbnail];
      r := Ok(thumbnail);
    }
  }
}
