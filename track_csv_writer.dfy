/** The filter that writes tracks to a CSV file: one row per track whose
    position changed in the frame (or per track and frame when all frames
    are written), with the last frame at an unchanged position written
    retrospectively once the track moves again. */
module TrackCsv {
  import opened Wrappers
  import opened Geometry
  import opened Strings
  import opened Csv
  import Util

  const CsvExtension: string := ".csv"
  const Headers: seq<string> := ["Frame", "Time", "TrackId", "x", "y", "ValueChanged"]

  /** What `handle` reads from a track: its id, whether its position changed
      at the last apply, and its current position. */
  datatype TrackView = TrackView(id: int, changed: bool, pos: Point)

  /** One `writePos` call: the (1-based) frame index, the track id, the point
      in pixels and the changed flag. */
  datatype PosRecord = PosRecord(frameIndex: int, id: int, pos: Point, changed: bool)

  /** The frame rate used for times: the configured one when positive, else
      the video's. */
  function FrameRate(fps: int, cameraFps: real): (r: real)
    ensures fps > 0 ==> r == fps as real
    ensures fps <= 0 ==> r == cameraFps
  {
    if fps > 0 then fps as real else cameraFps
  }

  /** The factor reads the frame size: there is no positive scale, but a
      positive user units width or height. */
  predicate ScaleNeedsFrame(scale: real, userUnitsWidth: real, userUnitsHeight: real) {
    scale <= 0.0 && (userUnitsWidth > 0.0 || userUnitsHeight > 0.0)
  }

  /** The conversion from pixels to user units: the inverse of a positive
      scale, else the user units per pixel from the width, then from the
      height, else 1. The frame size (null when no playback size was set)
      must be present, and its divisor non-zero, only on the branch that
      divides by it. */
  predicate ScaleDefined(scale: real, userUnitsWidth: real, userUnitsHeight: real, frameSize: Option<Size>) {
    scale <= 0.0 ==>
      && (userUnitsWidth > 0.0 ==> frameSize.Some? && frameSize.value.width != 0.0)
      && (userUnitsWidth <= 0.0 && userUnitsHeight > 0.0 ==> frameSize.Some? && frameSize.value.height != 0.0)
  }

  function ScaleFactor(scale: real, userUnitsWidth: real, userUnitsHeight: real, frameSize: Option<Size>): real
    requires ScaleDefined(scale, userUnitsWidth, userUnitsHeight, frameSize)
  {
    if scale > 0.0 then 1.0 / scale
    else if userUnitsWidth > 0.0 then userUnitsWidth / frameSize.value.width
    else if userUnitsHeight > 0.0 then userUnitsHeight / frameSize.value.height
    else 1.0
  }

  /** The factor converts a frame of `frameSize` pixels to the user's
      units: a positive scale is undone, a user width or height is met
      exactly by the frame's width or height, and otherwise pixels are kept. */
  lemma ScaleFactorConverts(scale: real, userUnitsWidth: real, userUnitsHeight: real, frameSize: Option<Size>)
    requires ScaleDefined(scale, userUnitsWidth, userUnitsHeight, frameSize)
    ensures var sf := ScaleFactor(scale, userUnitsWidth, userUnitsHeight, frameSize);
      && (scale > 0.0 ==> sf * scale == 1.0)
      && (scale <= 0.0 && userUnitsWidth > 0.0 ==> frameSize.value.width * sf == userUnitsWidth)
      && (scale <= 0.0 && userUnitsWidth <= 0.0 && userUnitsHeight > 0.0 ==> frameSize.value.height * sf == userUnitsHeight)
      && (scale <= 0.0 && userUnitsWidth <= 0.0 && userUnitsHeight <= 0.0 ==> sf == 1.0)
  {
  }

  /** The values of the row `writePos` writes. */
  function PosValues(r: PosRecord, rate: real, scaleFactor: real): seq<Value>
    requires rate != 0.0
  {
    [Int(r.frameIndex - 1), Real((r.frameIndex - 1) as real / rate), Int(r.id),
     Real(r.pos.x * scaleFactor), Real(r.pos.y * scaleFactor), Bool(r.changed)]
  }

  /** A row holds one value per header: the 0-based frame, the time in
      seconds at `rate` frames per second, the id, the point in user units
      and the changed flag. */
  lemma PosValuesMeaning(r: PosRecord, rate: real, scaleFactor: real)
    requires rate != 0.0
    ensures var vs := PosValues(r, rate, scaleFactor);
      && |vs| == |Headers|
      && vs[0] == Int(r.frameIndex - 1) && vs[2] == Int(r.id) && vs[5] == Bool(r.changed)
      && vs[1].Real? && vs[1].r * rate == (r.frameIndex - 1) as real
      && vs[3] == Real(r.pos.x * scaleFactor) && vs[4] == Real(r.pos.y * scaleFactor)
  {
  }

  /** The rows written for a run of records, one per record. */
  function Rows(rs: seq<PosRecord>, rate: real, scaleFactor: real, realText: real -> string): (ts: seq<string>)
    requires rate != 0.0
    ensures |ts| == |rs|
  {
    seq(|rs|, i requires 0 <= i < |rs| => Row(PosValues(rs[i], rate, scaleFactor), realText))
  }

  lemma RowsAppend(rs: seq<PosRecord>, more: seq<PosRecord>, rate: real, scaleFactor: real,
                   realText: real -> string)
    requires rate != 0.0
    ensures Rows(rs + more, rate, scaleFactor, realText) ==
            Rows(rs, rate, scaleFactor, realText) + Rows(more, rate, scaleFactor, realText)
  {
  }

  /** The rows written for one track and the skipped positions after it. */
  function TrackStep(v: TrackView, skipped: map<int, Point>, writeAllFrames: bool, frameIndex: int)
    : (seq<PosRecord>, map<int, Point>)
  {
    if writeAllFrames || v.changed then
      var last := if v.id in skipped then [PosRecord(frameIndex, v.id, skipped[v.id], false)] else [];
      (last + [PosRecord(frameIndex, v.id, v.pos, v.changed)], skipped - {v.id})
    else
      var none: seq<PosRecord> := [];
      (none, skipped[v.id := v.pos])
  }

  /** The rows the tracks loop of `handle` writes, in order, and the skipped
      positions it leaves. */
  function TrackRecords(views: seq<TrackView>, skipped: map<int, Point>, writeAllFrames: bool, frameIndex: int)
    : (seq<PosRecord>, map<int, Point>)
  {
    if |views| == 0 then ([], skipped)
    else
      var (rs, m) := TrackRecords(views[..|views| - 1], skipped, writeAllFrames, frameIndex);
      var (more, m') := TrackStep(views[|views| - 1], m, writeAllFrames, frameIndex);
      (rs + more, m')
  }

  lemma TrackRecordsSnoc(views: seq<TrackView>, i: int, skipped: map<int, Point>, writeAllFrames: bool, frameIndex: int)
    requires 0 <= i < |views|
    ensures var prev := TrackRecords(views[..i], skipped, writeAllFrames, frameIndex);
      var step := TrackStep(views[i], prev.1, writeAllFrames, frameIndex);
      TrackRecords(views[..i + 1], skipped, writeAllFrames, frameIndex) == (prev.0 + step.0, step.1)
  {
    assert views[..i + 1][..i] == views[..i];
  }

  /** Writing all frames: one row per track, in order, with its own
      position and flag, and the skipped positions stay empty. */
  lemma {:induction false} AllFramesOneRowEach(views: seq<TrackView>, frameIndex: int)
    ensures var (rs, m) := TrackRecords(views, map[], true, frameIndex);
      && m == map[] && |rs| == |views|
      && forall i :: 0 <= i < |views| ==> rs[i] == PosRecord(frameIndex, views[i].id, views[i].pos, views[i].changed)
  {
    if |views| > 0 {
      var n := |views| - 1;
      AllFramesOneRowEach(views[..n], frameIndex);
      var v := views[n];
      var empty: map<int, Point> := map[];
      assert empty - {v.id} == empty;
      assert v.id !in empty;
      assert TrackStep(v, empty, true, frameIndex).0 == [PosRecord(frameIndex, v.id, v.pos, v.changed)];
      assert TrackStep(v, empty, true, frameIndex).1 == empty;
    }
  }

  /** When only changes are written, a frame in which no track moved
      writes nothing, and every track's position is remembered. */
  lemma {:induction false} NoChangeNoRows(views: seq<TrackView>, skipped: map<int, Point>, frameIndex: int)
    requires forall i :: 0 <= i < |views| ==> !views[i].changed
    ensures TrackRecords(views, skipped, false, frameIndex).0 == []
    ensures forall i :: 0 <= i < |views| ==> views[i].id in TrackRecords(views, skipped, false, frameIndex).1
  {
    if |views| > 0 {
      NoChangeNoRows(views[..|views| - 1], skipped, frameIndex);
    }
  }

  /** When only changes are written and ids are distinct: a moved track's
      remembered position is forgotten, an unmoved track's current position
      is remembered, and other ids keep what they had. */
  lemma {:induction false} SkippedAfterFrame(views: seq<TrackView>, skipped: map<int, Point>, frameIndex: int)
    requires forall i, j :: 0 <= i < j < |views| ==> views[i].id != views[j].id
    ensures var m := TrackRecords(views, skipped, false, frameIndex).1;
      && (forall i :: 0 <= i < |views| && views[i].changed ==> views[i].id !in m)
      && (forall i :: 0 <= i < |views| && !views[i].changed ==> views[i].id in m && m[views[i].id] == views[i].pos)
      && (forall id :: (forall i :: 0 <= i < |views| ==> views[i].id != id) ==>
            (id in m <==> id in skipped) && (id in m ==> m[id] == skipped[id]))
  {
    if |views| > 0 {
      var n := |views| - 1;
      var front, v := views[..n], views[n];
      SkippedAfterFrame(front, skipped, frameIndex);
      var before := TrackRecords(front, skipped, false, frameIndex).1;
      var m := TrackRecords(views, skipped, false, frameIndex).1;
      assert m == if v.changed then before - {v.id} else before[v.id := v.pos];
      assert forall i :: 0 <= i < n ==> views[i] == front[i] && views[i].id != v.id;
    }
  }

  /** A track that moves after a stay writes the stay's last position first
      (unchanged, at this frame), then its new position. */
  lemma MoveAfterStay(v: TrackView, skipped: map<int, Point>, writeAllFrames: bool, frameIndex: int)
    requires v.changed && v.id in skipped
    ensures TrackStep(v, skipped, writeAllFrames, frameIndex).0 ==
      [PosRecord(frameIndex, v.id, skipped[v.id], false), PosRecord(frameIndex, v.id, v.pos, true)]
  {
  }

  /** `canHandle`: the lower-cased name ends with ".csv". */
  predicate CanHandle(fileName: string) {
    EndsWith(ToLowerAscii(fileName), CsvExtension)
  }

  /** `deriveName`: the video's name with its extension replaced by ".csv". */
  function DeriveName(videoFile: string): (r: string)
    ensures EndsWith(r, CsvExtension)
  {
    Util.ReplaceExtension(videoFile, CsvExtension)
  }

  /** A derived name is always one this writer handles. */
  lemma DerivedNameIsHandled(videoFile: string)
    ensures CanHandle(DeriveName(videoFile))
  {
    LowerKeepsExtension(DeriveName(videoFile));
  }

  /** Lower-casing keeps a lower-case ".csv" ending. */
  lemma LowerKeepsExtension(r: string)
    requires EndsWith(r, CsvExtension)
    ensures EndsWith(ToLowerAscii(r), CsvExtension)
  {
    var low := ToLowerAscii(r);
    var n := |r|;
    assert r[n - 4] == '.' && r[n - 3] == 'c' && r[n - 2] == 's' && r[n - 1] == 'v' by {
      assert r[n - 4..] == CsvExtension;
    }
    assert low[n - 4..] == CsvExtension;
  }

  /** `TrackCSVWriter`, which extends `CSVWriter`; the writer part is held
      as `csv`. */
  class TrackCSVWriter {
    const csv: CSVWriter
    const writeAllFrames: bool
    const fps: int
    var writeTracks: bool
    var skippedPos: map<int, Point>
    var frameSize: Option<Size>
    var lastFrameIndex: int
    var userUnitsWidth: real
    var userUnitsHeight: real
    var scaleFactor: real
    var scale: real

    /** Opens the writer and writes the one header row. */
    constructor (realText: real -> string, writeAllFrames: bool, fps: int)
      ensures fresh(csv) && csv.open && csv.realText == realText
      ensures csv.out == [Row(seq(|Headers|, i requires 0 <= i < |Headers| => Text(Headers[i])), realText)]
      ensures this.writeAllFrames == writeAllFrames && this.fps == fps
      ensures !writeTracks && skippedPos == map[] && frameSize == None
      ensures userUnitsWidth == 0.0 && userUnitsHeight == 0.0 && scale == 0.0
    {
      var w := new CSVWriter(realText);
      w.WriteHeaders(Headers);
      csv := w;
      this.writeAllFrames := writeAllFrames;
      this.fps := fps;
      writeTracks := false;
      skippedPos := map[];
      frameSize := None;
      lastFrameIndex := 0;
      userUnitsWidth := 0.0;
      userUnitsHeight := 0.0;
      scaleFactor := 0.0;
      scale := 0.0;
    }

    method SetWriteTracks(writeTracks: bool)
      modifies this
      ensures this.writeTracks == writeTracks && skippedPos == old(skippedPos) && frameSize == old(frameSize)
      ensures scale == old(scale) && userUnitsWidth == old(userUnitsWidth) && userUnitsHeight == old(userUnitsHeight)
    {
      this.writeTracks := writeTracks;
    }

    method SetScale(scale: real)
      modifies this
      ensures this.scale == scale && writeTracks == old(writeTracks) && skippedPos == old(skippedPos)
      ensures frameSize == old(frameSize) && userUnitsWidth == old(userUnitsWidth) && userUnitsHeight == old(userUnitsHeight)
    {
      this.scale := scale;
    }

    method SetUserUnitsWidth(width: real)
      modifies this
      ensures userUnitsWidth == width && writeTracks == old(writeTracks) && skippedPos == old(skippedPos)
      ensures frameSize == old(frameSize) && scale == old(scale) && userUnitsHeight == old(userUnitsHeight)
    {
      userUnitsWidth := width;
    }

    method SetUserUnitsHeight(height: real)
      modifies this
      ensures userUnitsHeight == height && writeTracks == old(writeTracks) && skippedPos == old(skippedPos)
      ensures frameSize == old(frameSize) && scale == old(scale) && userUnitsWidth == old(userUnitsWidth)
    {
      userUnitsHeight := height;
    }

    /** `writePos`. */
    method WritePos(frameIndex: int, cameraFps: real, trackId: int, point: Point, valueChanged: bool)
      requires FrameRate(fps, cameraFps) != 0.0
      modifies csv
      ensures csv.out == old(csv.out) +
        if csv.open then Rows([PosRecord(frameIndex, trackId, point, valueChanged)], FrameRate(fps, cameraFps), scaleFactor, csv.realText)
        else []
      ensures csv.open == old(csv.open)
    {
      var rate := FrameRate(fps, cameraFps);
      var r := PosRecord(frameIndex, trackId, point, valueChanged);
      var values := PosValues(r, rate, scaleFactor);
      assert Rows([r], rate, scaleFactor, csv.realText) == [Row(values, csv.realText)];
      csv.WriteValues(values);
    }

    /** One iteration of the tracks loop of `handle`. */
    method HandleTrack(v: TrackView, frameIndex: int, cameraFps: real)
      requires FrameRate(fps, cameraFps) != 0.0
      modifies this`skippedPos, csv
      ensures var (rs, m) := TrackStep(v, old(skippedPos), writeAllFrames, frameIndex);
        && skippedPos == m
        && csv.out == old(csv.out) + if csv.open then Rows(rs, FrameRate(fps, cameraFps), scaleFactor, csv.realText) else []
      ensures csv.open == old(csv.open)
    {
      ghost var rate := FrameRate(fps, cameraFps);
      ghost var rt := csv.realText;
      if writeAllFrames || v.changed {
        if v.id in skippedPos {
          var lastPos := skippedPos[v.id];
          WritePos(frameIndex, cameraFps, v.id, lastPos, false);
          skippedPos := skippedPos - {v.id};
        }
        WritePos(frameIndex, cameraFps, v.id, v.pos, v.changed);
        ghost var last := if v.id in old(skippedPos) then [PosRecord(frameIndex, v.id, old(skippedPos)[v.id], false)] else [];
        RowsAppend(last, [PosRecord(frameIndex, v.id, v.pos, v.changed)], rate, scaleFactor, rt);
      } else {
        if !writeAllFrames {
          skippedPos := skippedPos[v.id := v.pos];
        }
      }
    }

    /** What the tracks loop of `handle` has written and remembered once
        the first `i` tracks are handled, from remembered positions `m0` and
        output `out0`. */
    ghost predicate LoopDone(views: seq<TrackView>, i: int, m0: map<int, Point>, out0: seq<string>, rate: real)
      requires 0 <= i <= |views| && rate != 0.0
      reads this, csv
    {
      var (rs, m) := TrackRecords(views[..i], m0, writeAllFrames, lastFrameIndex);
      && skippedPos == m
      && csv.out == out0 + if csv.open then Rows(rs, rate, scaleFactor, csv.realText) else []
    }

    /** One iteration of the tracks loop, kept as its own step. */
    method HandleTracksStep(views: seq<TrackView>, i: int, cameraFps: real,
                            ghost m0: map<int, Point>, ghost out0: seq<string>)
      requires 0 <= i < |views| && FrameRate(fps, cameraFps) != 0.0
      requires LoopDone(views, i, m0, out0, FrameRate(fps, cameraFps))
      modifies this`skippedPos, csv
      ensures LoopDone(views, i + 1, m0, out0, FrameRate(fps, cameraFps))
      ensures csv.open == old(csv.open)
    {
      ghost var rate := FrameRate(fps, cameraFps);
      ghost var prev := TrackRecords(views[..i], m0, writeAllFrames, lastFrameIndex);
      ghost var step := TrackStep(views[i], prev.1, writeAllFrames, lastFrameIndex);
      TrackRecordsSnoc(views, i, m0, writeAllFrames, lastFrameIndex);
      RowsAppend(prev.0, step.0, rate, scaleFactor, csv.realText);
      ghost var before := csv.out;
      HandleTrack(views[i], lastFrameIndex, cameraFps);
      if csv.open {
        assert csv.out == before + Rows(step.0, rate, scaleFactor, csv.realText);
        assert before == out0 + Rows(prev.0, rate, scaleFactor, csv.realText);
        assert csv.out == out0 + Rows(prev.0 + step.0, rate, scaleFactor, csv.realText);
      }
    }

    /** The tracks loop of `handle`, for the frame `lastFrameIndex`. */
    method HandleTracks(views: seq<TrackView>, cameraFps: real)
      requires FrameRate(fps, cameraFps) != 0.0
      modifies this`skippedPos, csv
      ensures var (rs, m) := TrackRecords(views, old(skippedPos), writeAllFrames, lastFrameIndex);
        && skippedPos == m
        && csv.out == old(csv.out) + if csv.open then Rows(rs, FrameRate(fps, cameraFps), scaleFactor, csv.realText) else []
      ensures csv.open == old(csv.open)
    {
      ghost var rate := FrameRate(fps, cameraFps);
      ghost var m0 := skippedPos;
      ghost var out0 := csv.out;
      assert views[..0] == [];
      for i := 0 to |views|
        invariant LoopDone(views, i, m0, out0, rate)
        invariant csv.open == old(csv.open)
      {
        HandleTracksStep(views, i, cameraFps, m0, out0);
      }
      assert views[..|views|] == views;
    }

    /** `handle`: nothing when not running; otherwise the frame size (the
        playback size, null unless one was configured) and frame index are
        recorded and the scale factor computed, then either every track is
        handled (tracks mode) or, when there is exactly one detection, its
        centroid is written with id 1. Computing the factor from user units
        with no frame size throws `NullPointerException` (`thrown`), after
        the frame size and index are recorded and before anything is
        written. */
    method Handle(centroids: seq<Point>, views: seq<TrackView>, running: bool, playbackSize: Option<Size>,
                  frameIndex: int, cameraFps: real) returns (thrown: bool)
      requires FrameRate(fps, cameraFps) != 0.0
      requires playbackSize.Some? ==> ScaleDefined(scale, userUnitsWidth, userUnitsHeight, playbackSize)
      modifies this, csv
      ensures thrown <==> running && ScaleNeedsFrame(old(scale), old(userUnitsWidth), old(userUnitsHeight)) && playbackSize.None?
      ensures !running ==> skippedPos == old(skippedPos) && frameSize == old(frameSize) && csv.out == old(csv.out)
      ensures running ==> frameSize == playbackSize && lastFrameIndex == frameIndex
      ensures thrown ==> skippedPos == old(skippedPos) && scaleFactor == old(scaleFactor) && csv.out == old(csv.out)
      ensures running && !thrown ==>
        && ScaleDefined(old(scale), old(userUnitsWidth), old(userUnitsHeight), playbackSize)
        && scaleFactor == ScaleFactor(old(scale), old(userUnitsWidth), old(userUnitsHeight), playbackSize)
      ensures running && !thrown && writeTracks ==>
        var (rs, m) := TrackRecords(views, old(skippedPos), writeAllFrames, frameIndex);
        && skippedPos == m
        && csv.out == old(csv.out) + if csv.open then Rows(rs, FrameRate(fps, cameraFps), scaleFactor, csv.realText) else []
      ensures running && !thrown && !writeTracks ==>
        && skippedPos == old(skippedPos)
        && csv.out == old(csv.out) +
             if csv.open && |centroids| == 1
             then Rows([PosRecord(frameIndex, 1, centroids[0], true)], FrameRate(fps, cameraFps), scaleFactor, csv.realText)
             else []
      ensures csv.open == old(csv.open) && writeTracks == old(writeTracks) && scale == old(scale)
      ensures userUnitsWidth == old(userUnitsWidth) && userUnitsHeight == old(userUnitsHeight)
    {
      thrown := false;
      if !running {
        return;
      }
      frameSize := playbackSize;
      lastFrameIndex := frameIndex;
      if scale > 0.0 {
        scaleFactor := 1.0 / scale;
      } else if userUnitsWidth > 0.0 || userUnitsHeight > 0.0 {
        if playbackSize.None? {
          thrown := true;
          return;
        }
        scaleFactor := if userUnitsWidth > 0.0 then userUnitsWidth / playbackSize.value.width
          else userUnitsHeight / playbackSize.value.height;
      } else {
        scaleFactor := 1.0;
      }
      if writeTracks {
        HandleTracks(views, cameraFps);
      } else if |centroids| == 1 {
        WritePos(frameIndex, cameraFps, 1, centroids[0], true);
      }
    }

    /** `onDone`: a final row with id -1 at the frame size, when the last
        frame handled had a playback size, then the writer is closed. */
    method OnDone(cameraFps: real)
      requires FrameRate(fps, cameraFps) != 0.0
      modifies csv
      ensures !csv.open
      ensures csv.out == old(csv.out) +
        if old(csv.open) && frameSize.Some?
        then Rows([PosRecord(lastFrameIndex, -1, Point(frameSize.value.width, frameSize.value.height), false)],
                  FrameRate(fps, cameraFps), scaleFactor, csv.realText)
        else []
    {
      if frameSize.Some? {
        WritePos(lastFrameIndex, cameraFps, -1, Point(frameSize.value.width, frameSize.value.height), false);
      }
      csv.Close();
    }
  }
}
