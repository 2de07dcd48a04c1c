/**
 `VideoScaler`: the region of interest, frame by frame, and the size of what
 leaves the scaler.
 */
module VideoScaler {
  import opened Common

  datatype Roi = Roi(x: int, y: int, width: int, height: int)

  datatype Route = PassOn | CropAndScale(roi: Roi, width: int, height: int) | Scale(width: int, height: int)

  // Integer division of C++, truncating towards zero.
  function TruncDiv(a: int, b: int): int
    requires b != 0
  {
    if (a >= 0) == (b > 0) then Abs(a) / Abs(b) else -(Abs(a) / Abs(b))
  }

  function Abs(a: int): nat { if a >= 0 then a else -a }

  // One axis of the clamping in OnFrame: offset and extent against the frame's extent.
  function ClampOffset(offset: int, frame: int): int {
    if offset != 0 && offset >= frame then 0 else offset
  }

  function ClampExtent(offset: int, extent: int, frame: int): int {
    if extent == 0 || extent + offset > frame then frame - offset else extent
  }

  function Clamp(r: Roi, width: int, height: int): Roi {
    var x, y := ClampOffset(r.x, width), ClampOffset(r.y, height);
    Roi(x, y, ClampExtent(x, r.width, width), ClampExtent(y, r.height, height))
  }

  predicate NonNegative(r: Roi) { r.x >= 0 && r.y >= 0 && r.width >= 0 && r.height >= 0 }

  predicate Inside(r: Roi, width: int, height: int) {
    0 <= r.x < r.x + r.width <= width && 0 <= r.y < r.y + r.height <= height
  }

  // Size of the output buffer for a configured size in which zero means "derive".
  function OutputSize(width: int, height: int, r: Roi): (int, int)
    requires r.width != 0 && r.height != 0
  {
    if height == 0 && width == 0 then (r.width, r.height)
    else if height == 0 then (width, TruncDiv(r.height * width, r.width))
    else if width == 0 then (TruncDiv(r.width * height, r.height), height)
    else (width, height)
  }

  // The configuration, which frames do not change.
  datatype Settings = Settings(width: int, height: int, rotation: int)

  // The part of a region that stays non-negative whatever the frames are.
  predicate Placed(r: Roi) { r.x >= 0 && r.y >= 0 }

  // A decoded picture has positive size; a native buffer, which only carries encoded data, may
  // report any size.
  predicate Plausible(width: int, height: int, native: bool) { native || (width > 0 && height > 0) }

  lemma ClampedIsScalable(r: Roi, width: int, height: int)
    requires Placed(r)
    ensures Placed(Clamp(r, width, height))
    ensures width > 0 && height > 0 ==> Clamp(r, width, height).width != 0 && Clamp(r, width, height).height != 0
  {}

  // Where a frame goes once the region is clamped.
  function RouteOf(c: Settings, r: Roi, width: int, height: int, native: bool): Route
    requires native || (r.width != 0 && r.height != 0)
  {
    if (r.width != width && r.height == height && c.rotation == 0) || native then PassOn else
      var out := OutputSize(c.width, c.height, r);
      if r.width != width || r.height != height then CropAndScale(r, out.0, out.1) else Scale(out.0, out.1)
  }

  // One frame: the new region, and where the frame goes.
  function ScaleStep(c: Settings, r: Roi, width: int, height: int, native: bool): (Roi, Route)
    requires Placed(r) && Plausible(width, height, native)
  {
    ClampedIsScalable(r, width, height);
    var now := Clamp(r, width, height);
    (now, RouteOf(c, now, width, height, native))
  }

  // The region asks for part of the frame.
  predicate CropsTo(r: Roi, width: int, height: int) { Clamp(r, width, height) != Roi(0, 0, width, height) }

  // A picture of which the region is only part is cropped if and only if the region is lower than the
  // picture or a rotation is configured; otherwise it goes on as it is, uncropped and unscaled.
  lemma CroppedExactlyWhen(c: Settings, r: Roi, width: int, height: int)
    requires NonNegative(r) && width > 0 && height > 0
    ensures CropsTo(r, width, height) ==>
              (ScaleStep(c, r, width, height, false).1.CropAndScale? <==>
               Clamp(r, width, height).height != height || c.rotation != 0)
    ensures ScaleStep(c, r, width, height, false).1.PassOn? <==>
              CropsTo(r, width, height) && Clamp(r, width, height).height == height && c.rotation == 0
    ensures ScaleStep(c, r, width, height, false).1.Scale? <==> !CropsTo(r, width, height)
  {
    ClampInside(r, width, height);
  }

  // The left half of a picture, to be scaled to 160 x 120: the whole picture goes on at its own size.
  lemma HalfIsNotCropped()
    ensures ScaleStep(Settings(160, 120, 0), Roi(0, 0, 320, 480), 640, 480, false) == (Roi(0, 0, 320, 480), PassOn)
  {}

  class VideoScaler {
    var width: int
    var height: int
    var rotation: int
    var roi: Roi

    function Config(): Settings
      reads this
    {
      Settings(width, height, rotation)
    }

    // The options, as far as they are present.
    constructor (width: Option<int>, height: Option<int>, rotation: Option<int>,
                 x: Option<int>, y: Option<int>, roiWidth: Option<int>, roiHeight: Option<int>)
      ensures NonNegative(this.roi)
      ensures this.width == (if width.Some? then width.value else 0)
      ensures this.height == (if height.Some? then height.value else 0)
      ensures this.rotation == if rotation.Some? && rotation.value in {90, 180, 270} then rotation.value else 0
      ensures this.roi.x == (if x.Some? && x.value >= 0 then x.value else 0)
      ensures this.roi.y == (if y.Some? && y.value >= 0 then y.value else 0)
      ensures this.roi.width == (if roiWidth.Some? && roiWidth.value > 0 then roiWidth.value else 0)
      ensures this.roi.height == (if roiHeight.Some? && roiHeight.value > 0 then roiHeight.value else 0)
    {
      this.width := if width.Some? then width.value else 0;
      this.height := if height.Some? then height.value else 0;
      this.rotation := if rotation.Some? && rotation.value in {90, 180, 270} then rotation.value else 0;
      this.roi := Roi(
        if x.Some? && x.value >= 0 then x.value else 0,
        if y.Some? && y.value >= 0 then y.value else 0,
        if roiWidth.Some? && roiWidth.value > 0 then roiWidth.value else 0,
        if roiHeight.Some? && roiHeight.value > 0 then roiHeight.value else 0);
    }

    method CreateOutputBuffer() returns (outWidth: int, outHeight: int)
      requires roi.width != 0 && roi.height != 0
      ensures (outWidth, outHeight) == OutputSize(width, height, roi)
    {
      outWidth, outHeight := width, height;
      if outHeight == 0 && outWidth == 0 {
        outWidth, outHeight := roi.width, roi.height;
      } else if outHeight == 0 {
        outHeight := TruncDiv(roi.height * outWidth, roi.width);
      } else if outWidth == 0 {
        outWidth := TruncDiv(roi.width * outHeight, roi.height);
      }
    }

    method ClampRegion(frameWidth: int, frameHeight: int)
      modifies this`roi
      ensures roi == Clamp(old(roi), frameWidth, frameHeight)
    {
      var r := roi;
      if r.x != 0 && r.x >= frameWidth { r := r.(x := 0); }
      if r.y != 0 && r.y >= frameHeight { r := r.(y := 0); }
      if r.width != 0 && r.width + r.x > frameWidth { r := r.(width := 0); }
      if r.height != 0 && r.height + r.y > frameHeight { r := r.(height := 0); }
      if r.width == 0 { r := r.(width := frameWidth - r.x); }
      if r.height == 0 { r := r.(height := frameHeight - r.y); }
      roi := r;
    }

    method OnFrame(frameWidth: int, frameHeight: int, native: bool) returns (route: Route)
      requires Placed(roi) && Plausible(frameWidth, frameHeight, native)
      modifies this`roi
      ensures (roi, route) == ScaleStep(Config(), old(roi), frameWidth, frameHeight, native) && Placed(roi)
      ensures native ==> route == PassOn
      ensures NonNegative(old(roi)) && frameWidth > 0 && frameHeight > 0 ==> Inside(roi, frameWidth, frameHeight)
      // a picture is cropped if the region is part of it, except one of full height that is not rotated
      ensures NonNegative(old(roi)) && !native ==>
                (route.CropAndScale? <==> CropsTo(old(roi), frameWidth, frameHeight) &&
                                          (Clamp(old(roi), frameWidth, frameHeight).height != frameHeight || rotation != 0))
    {
      ClampedIsScalable(roi, frameWidth, frameHeight);
      if NonNegative(roi) && frameWidth > 0 && frameHeight > 0 {
        ClampInside(roi, frameWidth, frameHeight);
      }
      if NonNegative(roi) && !native {
        CroppedExactlyWhen(Config(), roi, frameWidth, frameHeight);
      }
      ClampRegion(frameWidth, frameHeight);
      if (roi.width != frameWidth && roi.height == frameHeight && rotation == 0) || native {
        route := PassOn;
      } else {
        var outWidth, outHeight := CreateOutputBuffer();
        if roi.width != frameWidth || roi.height != frameHeight {
          route := CropAndScale(roi, outWidth, outHeight);
        } else {
          route := Scale(outWidth, outHeight);
        }
      }
    }
  }

  // ---------------------------------------------------------------- the region

  lemma ClampInside(r: Roi, width: int, height: int)
    requires NonNegative(r) && width > 0 && height > 0
    ensures Inside(Clamp(r, width, height), width, height)
  {}

  // One axis of the region, as (offset, extent) before and after a frame of this size: an offset inside
  // the frame is kept and one beyond it becomes zero; an extent that is set and fits is kept, and one
  // that is unset or too long reaches exactly the far edge.
  predicate AxisFits(offset: int, extent: int, frame: int, offset': int, extent': int) {
    && (offset < frame ==> offset' == offset)
    && (offset >= frame ==> offset' == 0)
    && (0 < extent && offset' + extent <= frame ==> extent' == extent)
    && (extent == 0 || offset' + extent > frame ==> offset' + extent' == frame)
  }

  lemma ClampExactly(r: Roi, width: int, height: int)
    requires NonNegative(r) && width > 0 && height > 0
    ensures var now := Clamp(r, width, height);
            AxisFits(r.x, r.width, width, now.x, now.width) && AxisFits(r.y, r.height, height, now.y, now.height)
  {}

  // The two extremes: a region that is not configured becomes the whole frame, so that nothing is
  // cropped; one that lies inside the frame stays as it is.
  lemma ClampExtremes(r: Roi, width: int, height: int)
    requires width > 0 && height > 0
    ensures Clamp(Roi(0, 0, 0, 0), width, height) == Roi(0, 0, width, height)
    ensures !CropsTo(Roi(0, 0, 0, 0), width, height)
    ensures Inside(r, width, height) ==> Clamp(r, width, height) == r
  {}

  function ClampAll(r: Roi, sizes: seq<(int, int)>): Roi {
    if sizes == [] then r else
      var n := |sizes| - 1;
      Clamp(ClampAll(r, sizes[..n]), sizes[n].0, sizes[n].1)
  }

  predicate Positive(sizes: seq<(int, int)>) {
    forall i :: 0 <= i < |sizes| ==> sizes[i].0 > 0 && sizes[i].1 > 0
  }

  // After any series of frames the region has positive size and lies inside the last one; a frame
  // of the same size, or any larger one, leaves it as it is.
  lemma {:induction false} RegionFollowsFrames(r: Roi, sizes: seq<(int, int)>, width: int, height: int)
    requires NonNegative(r) && Positive(sizes)
    ensures NonNegative(ClampAll(r, sizes))
    ensures sizes != [] ==>
              var last := sizes[|sizes| - 1]; var now := ClampAll(r, sizes);
              && Inside(now, last.0, last.1)
              && (width >= last.0 && height >= last.1 ==> Clamp(now, width, height) == now)
  {
    if sizes != [] {
      var n := |sizes| - 1;
      RegionFollowsFrames(r, sizes[..n], width, height);
      ClampInside(ClampAll(r, sizes[..n]), sizes[n].0, sizes[n].1);
    }
  }

  // ---------------------------------------------------------------- the aspect ratio

  lemma DivRemainder(a: int, b: int)
    requires a >= 0 && b > 0
    ensures 0 <= a - TruncDiv(a, b) * b < b
  {}

  // With both sides configured the output has that size, with neither the size of the region.
  lemma ConfiguredSizes(width: int, height: int, r: Roi)
    requires r.width != 0 && r.height != 0
    ensures width != 0 && height != 0 ==> OutputSize(width, height, r) == (width, height)
    ensures OutputSize(0, 0, r) == (r.width, r.height)
  {}

  // What is cropped or scaled is the clamped region, to that output size.
  lemma RouteSizes(c: Settings, r: Roi, width: int, height: int)
    requires NonNegative(r) && width > 0 && height > 0
    ensures var now := Clamp(r, width, height); var route := ScaleStep(c, r, width, height, false).1;
            && now.width != 0 && now.height != 0
            && (route.CropAndScale? ==> route.roi == now && (route.width, route.height) == OutputSize(c.width, c.height, now))
            && (route.Scale? ==> (route.width, route.height) == OutputSize(c.width, c.height, now))
  {
    ClampedIsScalable(r, width, height);
  }

  // For a positive configured side the derived one keeps the aspect ratio of the region up to a
  // remainder smaller than the divisor.
  lemma DerivedSideKeepsAspect(side: int, r: Roi)
    requires side > 0 && r.width > 0 && r.height > 0
    ensures var out := OutputSize(side, 0, r); out.0 == side && 0 <= r.height * side - out.1 * r.width < r.width
    ensures var out := OutputSize(0, side, r); out.1 == side && 0 <= r.width * side - out.0 * r.height < r.height
  {
    assert r.height * side >= 0 && r.width * side >= 0;
    DivRemainder(r.height * side, r.width);
    DivRemainder(r.width * side, r.height);
  }
}
