/** Static helpers of the utility class: colours, size parsing and scaling,
    the orthogonal video rotations, file-extension replacement and joining. */
module Util {
  import opened Wrappers
  import opened Geometry
  import opened Strings
  import R = Region

  /** org.opencv.core.Scalar as the core builds it: three channels (the fourth is always 0). */
  datatype Scalar = Scalar(v0: real, v1: real, v2: real)

  /** `RGB`: OpenCV colours are stored blue first, red last. */
  function RGB(red: int, green: int, blue: int): (s: Scalar)
    ensures s.v0 == blue as real && s.v1 == green as real && s.v2 == red as real
  {
    Scalar(blue as real, green as real, red as real)
  }

  /** `idToRGB`: bits 0, 1 and 2 of the id switch red, green and blue between 0 and 240.
      On a Java `long`, `id & 1` and `id >> k` agree with Euclidean `% 2` and
      floor division by 2^k, negative ids included. */
  function IdToRGB(id: int): Scalar {
    RGB((id % 2) * 240, ((id / 2) % 2) * 240, ((id / 4) % 2) * 240)
  }

  /** Each channel is 0 or 240, set by one of the id's three low bits. */
  lemma IdToRGBChannels(id: int)
    ensures IdToRGB(id).v2 == (if id % 2 == 1 then 240.0 else 0.0)
    ensures IdToRGB(id).v1 == (if (id / 2) % 2 == 1 then 240.0 else 0.0)
    ensures IdToRGB(id).v0 == (if (id / 4) % 2 == 1 then 240.0 else 0.0)
  {
  }

  /** Floor division by 2, pinned down by quotient and remainder. */
  lemma Halve(n: int, q: int, r: int)
    requires 0 <= r < 2 && n == 2 * q + r
    ensures n / 2 == q && n % 2 == r
  {
  }

  /** Bit 1 of an id is bit 1 of its three low bits. */
  lemma Bit1LowBits(id: int)
    ensures (id / 2) % 2 == ((id % 8) / 2) % 2
  {
    var q, r := id / 8, id % 8;
    var r2 := r / 2;
    assert r == 2 * r2 + r % 2;
    Halve(id, 4 * q + r2, r % 2);
    assert r2 == 2 * (r2 / 2) + r2 % 2;
    Halve(4 * q + r2, 2 * q + r2 / 2, r2 % 2);
  }

  /** Floor division by 4, pinned down by quotient and remainder. */
  lemma Quarter(n: int, q: int, r: int)
    requires 0 <= r < 4 && n == 4 * q + r
    ensures n / 4 == q
  {
  }

  /** Bit 0 of an id is bit 0 of its three low bits. */
  lemma Bit0LowBits(id: int)
    ensures id % 2 == (id % 8) % 2
  {
    var q, r := id / 8, id % 8;
    assert r == 2 * (r / 2) + r % 2;
    Halve(id, 4 * q + r / 2, r % 2);
  }

  /** Bit 2 of an id is bit 2 of its three low bits. */
  lemma Bit2LowBits(id: int)
    ensures (id / 4) % 2 == ((id % 8) / 4) % 2
  {
    var q, r := id / 8, id % 8;
    assert r == 4 * (r / 4) + r % 4;
    Quarter(id, 2 * q + r / 4, r % 4);
    var r4 := r / 4;
    assert 0 <= r4 < 2;
    Halve(2 * q + r4, q, r4);
  }

  /** The colour depends only on `id & 7`. */
  lemma IdToRGBLowBits(id: int)
    ensures IdToRGB(id) == IdToRGB(id % 8)
  {
    Bit0LowBits(id);
    Bit1LowBits(id);
    Bit2LowBits(id);
  }

  /** Ids that differ in their three low bits get different colours. */
  lemma IdToRGBDistinct(a: int, b: int)
    requires a % 8 != b % 8
    ensures IdToRGB(a) != IdToRGB(b)
  {
    IdToRGBLowBits(a);
    IdToRGBLowBits(b);
    var ra, rb := a % 8, b % 8;
    LowBitsDecompose(ra);
    LowBitsDecompose(rb);
    IdToRGBChannels(ra);
    IdToRGBChannels(rb);
  }

  /** A number below 8 is made of its three low bits. */
  lemma LowBitsDecompose(r: int)
    requires 0 <= r < 8
    ensures r == 4 * ((r / 4) % 2) + 2 * ((r / 2) % 2) + r % 2
  {
    if r < 4 {
      if r < 2 {
      } else {
      }
    } else {
      if r < 6 {
      } else {
      }
    }
  }

  /** `parseSize`: "<width>x<height>", each part read by `Double.parseDouble`
      (a parameter: `None` where Java throws). Any failure, a missing part
      included, becomes one error message. */
  function ParseSize(s: string, parseDouble: string -> Option<real>): (r: Result<Size, string>)
    ensures !Contains(s, 'x') ==> r.Failure?
  {
    var parts := Split(s, 'x');
    if |parts| < 2 then Failure(SizeError(s))
    else
      var w, h := parseDouble(parts[0]), parseDouble(parts[1]);
      if w.Some? && h.Some? then Success(Size(w.value, h.value)) else Failure(SizeError(s))
  }

  function SizeError(s: string): string {
    "Invalid size '" + s + "': expected '<width>x<height>"
  }

  /** "WxH" followed by nothing or by more 'x'-separated parts reads the first
      two parts as width and height; the rest is ignored. */
  lemma ParseSizeFirstTwoParts(w: string, h: string, tail: string, parseDouble: string -> Option<real>)
    requires !Contains(w, 'x') && !Contains(h, 'x') && h != ""
    requires tail == "" || tail[0] == 'x'
    ensures ParseSize(w + "x" + h + tail, parseDouble) ==
      if parseDouble(w).Some? && parseDouble(h).Some? then Success(Size(parseDouble(w).value, parseDouble(h).value))
      else Failure(SizeError(w + "x" + h + tail))
  {
    var s := w + "x" + h + tail;
    assert Join([w, h], "x") == w + "x" + h;
    SplitStartsWith([w, h], tail, 'x');
    var parts := Split(s, 'x');
    assert parts[..2] == [w, h];
    assert parts[0] == w && parts[1] == h;
  }

  /** `setWidthPreservingAR`: the new width, and the height that keeps the
      width:height ratio of `arSize`. */
  function SetWidthPreservingAR(newWidth: real, arSize: Size): (r: Size)
    requires arSize.width != 0.0
    ensures r.width == newWidth
    ensures r.height * arSize.width == newWidth * arSize.height
  {
    Size(newWidth, newWidth * arSize.height / arSize.width)
  }

  // ---------------------------------------------------------------------
  // OrthoRotation

  /** The four orthogonal rotations, with their angles in degrees
      (positive is counter-clockwise). */
  datatype OrthoRotation = NoRotation | Cw90 | Ccw90 | Cw180 {
    function Angle(): int {
      match this
      case NoRotation => 0
      case Cw90 => -90
      case Ccw90 => 90
      case Cw180 => 180
    }

    /** `negative`: the rotation that undoes this one; the two angles sum to a multiple of 360. */
    function Negative(): (r: OrthoRotation)
      ensures (r.Angle() + Angle()) % 360 == 0
    {
      match this
      case NoRotation => NoRotation
      case Cw90 => Ccw90
      case Ccw90 => Cw90
      case Cw180 => Cw180
    }

    /** `rotateSize`: width and height swap for the quarter turns only. */
    function RotateSize(size: Size): (r: Size)
      ensures (this == Cw90 || this == Ccw90) ==> r == Size(size.height, size.width)
      ensures (this == NoRotation || this == Cw180) ==> r == size
    {
      match this
      case Cw90 | Ccw90 => Size(size.height, size.width)
      case _ => size
    }

    /** The turn about (0, 0) that `rotate(Region, Size)` applies after translating. */
    function Turn(): R.QuarterTurn {
      match this
      case NoRotation => R.Deg0
      case Cw90 => R.Deg90
      case Ccw90 => R.DegMinus90
      case Cw180 => R.Deg180
    }

    /** `rotate(Region, Size)`: rotates a region drawn on a frame of `origSize`
        so that the rotated frame's top-left corner is again at (0, 0). */
    function RotateRegion(region: R.Region, origSize: Size): (r: R.Region)
      ensures r.includeRegion == region.includeRegion && R.SameShape(r.points, region.points)
    {
      match this
      case NoRotation => region
      case Cw90 => R.RotateQuarter(R.Translate(region, 0.0, -origSize.height), Turn())
      case Ccw90 => R.RotateQuarter(R.Translate(region, -origSize.width, 0.0), Turn())
      case Cw180 => R.RotateQuarter(R.Translate(region, -origSize.width, -origSize.height), Turn())
    }

    /** Where `RotateRegion` sends a single point of a frame of `size`. */
    function MovePoint(q: Point, size: Size): Point {
      match this
      case NoRotation => q
      case Cw90 => Point(size.height - q.y, q.x)
      case Ccw90 => Point(q.y, size.width - q.x)
      case Cw180 => Point(size.width - q.x, size.height - q.y)
    }
  }

  /** `values()` in declaration order. */
  const AllRotations: seq<OrthoRotation> := [NoRotation, Cw90, Ccw90, Cw180]

  /** `negative` is an involution. */
  lemma NegativeInvolution(r: OrthoRotation)
    ensures r.Negative().Negative() == r
  {
  }

  /** Rotating a size twice gives it back, and a rotation and its negative rotate sizes alike. */
  lemma RotateSizeProperties(r: OrthoRotation, size: Size)
    ensures r.RotateSize(r.RotateSize(size)) == size
    ensures r.Negative().RotateSize(size) == r.RotateSize(size)
  {
  }

  /** `validAngles`: the angles of all rotations, in declaration order. */
  method ValidAngles() returns (angles: seq<int>)
    ensures |angles| == |AllRotations|
    ensures forall i :: 0 <= i < |angles| ==> angles[i] == AllRotations[i].Angle()
  {
    var values := AllRotations;
    angles := [];
    for i := 0 to |values|
      invariant |angles| == i
      invariant forall k :: 0 <= k < i ==> angles[k] == values[k].Angle()
    {
      angles := angles + [values[i].Angle()];
    }
  }

  /** `join`: the StringBuilder loop that puts `sep` before every item but the first. */
  method JoinItems(items: seq<string>, sep: string) returns (s: string)
    ensures s == Join(items, sep)
  {
    s := "";
    var ts := "";
    for i := 0 to |items|
      invariant s == Join(items[..i], sep)
      invariant ts == if i == 0 then "" else sep
    {
      if i > 0 {
        JoinAppend(items[..i], items[i], sep);
      }
      assert items[..i + 1] == items[..i] + [items[i]];
      s := s + ts + items[i];
      ts := sep;
    }
    assert items[..|items|] == items;
  }

  /** The decimal renderings of `ns`, the `toString` of each boxed int. */
  function IntTexts(ns: seq<int>): (r: seq<string>)
    ensures |r| == |ns|
  {
    seq(|ns|, k requires 0 <= k < |ns| => IntText(ns[k]))
  }

  /** `fromAngle`: the rotation whose angle is `angle`, searched in
      declaration order; any other angle is an error naming the valid ones. */
  method FromAngle(angle: int) returns (r: Result<OrthoRotation, string>)
    ensures r.Success? <==> angle in {0, -90, 90, 180}
    ensures r.Success? ==> r.value.Angle() == angle
    ensures r.Failure? ==> r.error == "Invalid rotation (" + IntText(angle) + "), must be one of ("
                                      + Join(IntTexts([0, -90, 90, 180]), ", ") + ")"
  {
    var values := AllRotations;
    for i := 0 to |values|
      invariant forall k :: 0 <= k < i ==> values[k].Angle() != angle
    {
      if values[i].Angle() == angle {
        assert values[i].Angle() in {0, -90, 90, 180};
        return Success(values[i]);
      }
    }
    assert values[0].Angle() != angle && values[1].Angle() != angle;
    assert values[2].Angle() != angle && values[3].Angle() != angle;
    var valid := ValidAngles();
    assert valid == [0, -90, 90, 180];
    var text := JoinItems(IntTexts(valid), ", ");
    r := Failure("Invalid rotation (" + IntText(angle) + "), must be one of (" + text + ")");
  }

  /** `rotate(Region, Size)` moves each point independently, as `MovePoint` says. */
  lemma RotateRegionPointwise(rot: OrthoRotation, region: R.Region, size: Size)
    ensures rot.RotateRegion(region, size)
            == R.Region(region.includeRegion, R.MapPoints(region.points, q => rot.MovePoint(q, size)))
  {
    var pp := region.points;
    match rot
    case NoRotation =>
      R.MapPointsIdentity(pp, q => rot.MovePoint(q, size));
    case Cw90 =>
      R.MapPointsCompose(pp, q => R.TranslatePoint(q, 0.0, -size.height),
                         q => R.RotatePoint(q, 0.0, 1.0, Point(0.0, 0.0)), q => rot.MovePoint(q, size));
    case Ccw90 =>
      R.MapPointsCompose(pp, q => R.TranslatePoint(q, -size.width, 0.0),
                         q => R.RotatePoint(q, 0.0, -1.0, Point(0.0, 0.0)), q => rot.MovePoint(q, size));
    case Cw180 =>
      R.MapPointsCompose(pp, q => R.TranslatePoint(q, -size.width, -size.height),
                         q => R.RotatePoint(q, -1.0, 0.0, Point(0.0, 0.0)), q => rot.MovePoint(q, size));
  }

  /** A point of the `size` frame lands in the rotated frame of `RotateSize(size)`. */
  lemma MovePointStaysInFrame(rot: OrthoRotation, q: Point, size: Size)
    requires 0.0 <= q.x <= size.width && 0.0 <= q.y <= size.height
    ensures var m, s := rot.MovePoint(q, size), rot.RotateSize(size);
      0.0 <= m.x <= s.width && 0.0 <= m.y <= s.height
  {
  }

  /** The negative rotation, on the rotated frame, puts every point back. */
  lemma MovePointInverse(rot: OrthoRotation, q: Point, size: Size)
    ensures rot.Negative().MovePoint(rot.MovePoint(q, size), rot.RotateSize(size)) == q
  {
  }

  /** Rotating a region and then rotating it back with the negative rotation
      on the rotated frame size restores every point exactly. */
  lemma RotateRegionRoundTrip(rot: OrthoRotation, region: R.Region, size: Size)
    ensures rot.Negative().RotateRegion(rot.RotateRegion(region, size), rot.RotateSize(size)) == region
  {
    var neg, size2 := rot.Negative(), rot.RotateSize(size);
    var f := q => rot.MovePoint(q, size);
    var g := q => neg.MovePoint(q, size2);
    RotateRegionPointwise(rot, region, size);
    var mid := rot.RotateRegion(region, size);
    RotateRegionPointwise(neg, mid, size2);
    R.MapPointsCompose(region.points, f, g, q => q);
    R.MapPointsIdentity(region.points, q => q);
  }

  // ---------------------------------------------------------------------
  // File names

  /** `s` without its trailing '/' characters. */
  function StripTrailingSlashes(s: string): (r: string)
    ensures |r| <= |s| && r == s[..|r|]
    ensures |r| == 0 || r[|r| - 1] != '/'
  {
    if |s| > 0 && s[|s| - 1] == '/' then StripTrailingSlashes(s[..|s| - 1]) else s
  }

  /** `new File(file).getName()` on a Unix path: the last component once
      trailing separators are dropped. */
  function FileName(file: string): (r: string)
    ensures |r| <= |file|
  {
    var t := StripTrailingSlashes(file);
    t[LastIndexOf(t, '/') + 1..]
  }

  /** `replaceExtension`: cuts the file at the last '.' of its name and
      appends `newExtension`; with no '.' in the name it only appends. */
  function ReplaceExtension(file: string, newExtension: string): (r: string)
    ensures EndsWith(r, newExtension)
  {
    CutExtension(file, FileName(file), newExtension)
  }

  /** The body of `replaceExtension` once the name is known: the extension
      of `name` (from its last '.') is removed from the end of `file`. */
  function CutExtension(file: string, name: string, newExtension: string): (r: string)
    requires |name| <= |file|
    ensures EndsWith(r, newExtension)
  {
    var idx := LastIndexOf(name, '.');
    var basename := if idx != -1 then file[..|file| - (|name| - idx)] else file;
    assert (basename + newExtension)[|basename|..] == newExtension;
    basename + newExtension
  }

  /** `file` is a directory prefix `dir`, then a final component `stem + ext`
      in which `ext` is empty (no '.' in the component) or runs from its last '.'. */
  predicate ExtensionSplit(file: string, dir: string, stem: string, ext: string) {
    && file == dir + (stem + ext)
    && (dir == "" || dir[|dir| - 1] == '/')
    && !Contains(stem + ext, '/')
    && ((ext == "" && !Contains(stem, '.')) || (ext != "" && ext[0] == '.' && !Contains(ext[1..], '.')))
  }

  /** For a path not ending with '/', the name is what follows the last '/',
      and it contains no '/'. */
  lemma FileNameSplit(file: string) returns (dir: string)
    requires |file| == 0 || file[|file| - 1] != '/'
    ensures file == dir + FileName(file)
    ensures dir == "" || dir[|dir| - 1] == '/'
    ensures !Contains(FileName(file), '/')
  {
    assert StripTrailingSlashes(file) == file;
    var k := LastIndexOf(file, '/');
    dir := file[..k + 1];
    var name := file[k + 1..];
    assert FileName(file) == name;
    assert file == dir + name;
    forall j | 0 <= j < |name| ensures name[j] != '/' {
      assert name[j] == file[k + 1 + j];
    }
  }

  /** Cutting the extension off a final component `name` of `file`. */
  lemma CutExtensionParts(file: string, dir: string, name: string, newExtension: string)
    returns (stem: string, ext: string)
    requires file == dir + name && !Contains(name, '/')
    ensures stem + ext == name
    ensures (ext == "" && !Contains(stem, '.')) || (ext != "" && ext[0] == '.' && !Contains(ext[1..], '.'))
    ensures CutExtension(file, name, newExtension) == dir + stem + newExtension
  {
    var idx := LastIndexOf(name, '.');
    if idx == -1 {
      stem, ext := name, "";
      assert stem + ext == name;
    } else {
      stem, ext := name[..idx], name[idx..];
      assert stem + ext == name;
      assert ext[1..] == name[idx + 1..];
      assert file[..|file| - (|name| - idx)] == dir + stem;
    }
  }

  /** The directory, stem and extension `replaceExtension` works with. */
  lemma ExtensionParts(file: string, newExtension: string) returns (dir: string, stem: string, ext: string)
    requires |file| == 0 || file[|file| - 1] != '/'
    ensures ExtensionSplit(file, dir, stem, ext)
    ensures CutExtension(file, FileName(file), newExtension) == dir + stem + newExtension
  {
    var name := FileName(file);
    dir := FileNameSplit(file);
    stem, ext := CutExtensionParts(file, dir, name, newExtension);
  }

  /** For a path that does not end with '/', the result keeps the directory
      and the final component up to its last '.', then the new extension.
      The directory, stem and extension are returned. */
  lemma ReplaceExtensionCutsLastComponent(file: string, newExtension: string)
    returns (dir: string, stem: string, ext: string)
    requires |file| == 0 || file[|file| - 1] != '/'
    ensures ExtensionSplit(file, dir, stem, ext)
    ensures ReplaceExtension(file, newExtension) == dir + stem + newExtension
  {
    dir, stem, ext := ExtensionParts(file, newExtension);
  }
}
