/** The parameter records the core reads: the video-source options that fix
    how frames are rotated and resized, and the tracker thresholds. */
module Params {
  import opened Geometry
  import opened Util

  /** The source-video options that affect coordinates: the rotation applied
      to each frame and the width frames are resized to (0: no resizing). */
  datatype SrcVideoParams = SrcVideoParams(angle: OrthoRotation, resizeWidth: real)

  /** A frame size a source-video record can be applied to: when resizing is
      on, the width it is divided by is not 0 (Java would yield an infinity). */
  predicate Resizable(p: SrcVideoParams, s: Size) {
    p.resizeWidth != 0.0 ==> s.width != 0.0
  }

  /** `scaleSize`: the frame size after resizing; unchanged when resizing is
      off, otherwise `resizeWidth` wide with the aspect ratio kept. */
  function ScaleSize(p: SrcVideoParams, s: Size): (r: Size)
    requires Resizable(p, s)
    ensures p.resizeWidth == 0.0 ==> r == s
    ensures p.resizeWidth != 0.0 ==> r.width == p.resizeWidth && r.height * s.width == p.resizeWidth * s.height
  {
    if p.resizeWidth == 0.0 then s else SetWidthPreservingAR(p.resizeWidth, s)
  }

  /** `scale`: the factor from input-frame to resized-frame coordinates;
      1 when resizing is off, otherwise `resizeWidth / width`. */
  function Scale(p: SrcVideoParams, s: Size): (k: real)
    requires Resizable(p, s)
    ensures p.resizeWidth == 0.0 ==> k == 1.0
    ensures p.resizeWidth != 0.0 ==> k * s.width == p.resizeWidth
  {
    if p.resizeWidth == 0.0 then 1.0 else p.resizeWidth / s.width
  }

  /** Resizing is uniform: both sides of the frame are multiplied by `scale`. */
  lemma ScaleSizeIsUniform(p: SrcVideoParams, s: Size)
    requires Resizable(p, s)
    ensures ScaleSize(p, s) == Size(s.width * Scale(p, s), s.height * Scale(p, s))
  {
    if p.resizeWidth != 0.0 {
      var k := p.resizeWidth / s.width;
      calc {
        p.resizeWidth * s.height / s.width;
        s.height * (p.resizeWidth / s.width);
      }
      assert s.width * k == p.resizeWidth;
    }
  }

  /** The tracker and detector thresholds the core reads. */
  datatype TrackerParams = TrackerParams(
    minContourArea: real, maxContourArea: real,
    minContourLength: real, maxContourLength: real,
    maxLength: real,
    dilationErosionSize: seq<real>,
    maxJump: real, minGap: real, terminationBorder: real, ageWeighting: real)

  /** The defaults a fresh TrackerParams starts with. A negative termination
      border switches border termination off. */
  const DefaultTrackerParams: TrackerParams := TrackerParams(
    60.0, 2000.0,
    0.0, MaxValue,
    150.0,
    [],
    100.0, 50.0, -1.0, 0.0)
}
