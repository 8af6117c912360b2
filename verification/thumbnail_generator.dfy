/**
 * Thumbnail generation for the timeline: an image is its own thumbnail; a
 * video is sampled at evenly spaced times, and a sample that cannot be
 * captured is replaced by the most recent good frame (or by a frame grabbed
 * near the start before sampling begins).
 *
 * The browser is abstracted: the metadata duration is a parameter, and every
 * capture (seek, draw, encode) is an oracle `grab(attempt, time)` that either
 * yields a frame or fails. Attempt 0 is the backup grab, attempt i + 1 the
 * i-th sample.
 */
module ThumbnailGenerator {
  import opened Wrappers
  import opened JsNumbers
  import opened JsStrings

  /** A `File` or `Blob`: its MIME type and its name ("" when it has none). */
  datatype SourceFile = SourceFile(mimeType: string, name: string)

  /** A decoded frame, as far as the model can tell frames apart. */
  datatype Frame = Frame(id: nat)

  /** An element of the returned array: the input file itself, or a JPEG of a frame. */
  datatype Blob = Original(file: SourceFile) | Jpeg(frame: Frame)

  datatype Kind = Image | Video | Unsupported

  /** The options object after defaults (`secondsPerThumb = 5`, `minThumbs = 10`, `maxThumbs = 120`). */
  datatype Options = Options(
    fixedDuration: Option<Number>,
    targetCount: Option<int>,
    secondsPerThumb: real,
    minThumbs: int,
    maxThumbs: int)

  const DefaultOptions := Options(None, None, 5.0, 10, 120)

  /** The video extensions accepted by name. */
  predicate HasVideoExtension(lowerName: string) {
    EndsWith(lowerName, ".mov") || EndsWith(lowerName, ".m4v")
    || EndsWith(lowerName, ".mp4") || EndsWith(lowerName, ".webm")
  }

  /**
   * Image when the (non-empty) type starts with `image`; video when the type
   * starts with `video` or the lower-cased name has a video extension;
   * anything else, including no file at all, is unsupported.
   */
  function Classify(file: Option<SourceFile>): (k: Kind)
    ensures k == Image <==> file.Some? && StartsWith(file.value.mimeType, "image")
    ensures k == Video <==>
      && file.Some?
      && !StartsWith(file.value.mimeType, "image")
      && (StartsWith(file.value.mimeType, "video") || HasVideoExtension(ToLower(file.value.name)))
    ensures file.None? ==> k == Unsupported
  {
    if file.Some? && file.value.mimeType != [] && StartsWith(file.value.mimeType, "image") then Image
    else
      var name := if file.Some? then ToLower(file.value.name) else "";
      if (file.Some? && file.value.mimeType != [] && StartsWith(file.value.mimeType, "video"))
         || HasVideoExtension(name)
      then Video
      else Unsupported
  }

  /** A name is matched without regard to ASCII case: `clip.MOV` is a video like `clip.mov`. */
  lemma ClassifyIgnoresNameCase(mimeType: string, name1: string, name2: string)
    requires ToLower(name1) == ToLower(name2)
    ensures Classify(Some(SourceFile(mimeType, name1))) == Classify(Some(SourceFile(mimeType, name2)))
  {
  }

  /** An image type wins over whatever the name says. */
  lemma ClassifyImageFirst(mimeType: string, name: string)
    requires StartsWith(mimeType, "image")
    ensures Classify(Some(SourceFile(mimeType, name))) == Image
  {
  }

  /** Without a type, a video extension in any letter case is enough, and no extension means unsupported. */
  lemma ClassifyByName(name: string)
    ensures Classify(Some(SourceFile("", name))) == Video <==> HasVideoExtension(ToLower(name))
    ensures Classify(Some(SourceFile("", name))) != Image
  {
  }

  /**
   * `fixedDuration || video.duration`, replaced by 30 when it is 0, NaN or
   * infinite. A truthy fixed duration is chosen even when it is infinite, so
   * an infinite one gives 30 whatever the metadata says. The result is never 0.
   */
  function EffectiveDuration(fixedDuration: Option<Number>, metadata: Number): (d: real)
    ensures d != 0.0
    ensures fixedDuration.Some? && fixedDuration.value.Finite? && fixedDuration.value.value != 0.0
      ==> d == fixedDuration.value.value
    ensures !(fixedDuration.Some? && Truthy(fixedDuration.value)) && metadata.Finite? && metadata.value != 0.0
      ==> d == metadata.value
    ensures fixedDuration.Some? && fixedDuration.value.Infinity? ==> d == 30.0
    ensures !(fixedDuration.Some? && Truthy(fixedDuration.value)) && !(metadata.Finite? && metadata.value != 0.0)
      ==> d == 30.0
    ensures d == 30.0 || (fixedDuration.Some? && Finite(d) == fixedDuration.value) || Finite(d) == metadata
  {
    var chosen := if fixedDuration.Some? && Truthy(fixedDuration.value) then fixedDuration.value else metadata;
    if Truthy(chosen) && chosen.Finite? then chosen.value else 30.0
  }

  /** Without usable durations the fallback is 30 seconds. */
  lemma EffectiveDurationFallback(metadata: Number)
    requires !(metadata.Finite? && metadata.value != 0.0)
    ensures EffectiveDuration(None, metadata) == 30.0
    ensures EffectiveDuration(Some(NaN), metadata) == 30.0
    ensures EffectiveDuration(Some(Finite(0.0)), metadata) == 30.0
  {
  }

  /**
   * `targetCount ?? min(maxThumbs, max(minThumbs, ceil(duration / max(1, secondsPerThumb))))`.
   */
  function SampleCount(opts: Options, duration: real): (count: int)
    ensures opts.targetCount.Some? ==> count == opts.targetCount.value
    ensures opts.targetCount.None? && opts.minThumbs <= opts.maxThumbs ==>
      opts.minThumbs <= count <= opts.maxThumbs
    ensures opts.targetCount.None? ==> count <= opts.maxThumbs
  {
    if opts.targetCount.Some? then opts.targetCount.value
    else
      var step := MaxReal(1.0, opts.secondsPerThumb);
      MinInt(opts.maxThumbs, MaxInt(opts.minThumbs, Ceil(duration / step)))
  }

  /**
   * Without a target the count is `ceil(duration / step)` clamped into
   * `[minThumbs, maxThumbs]`: unless the maximum binds, `count` steps cover
   * the duration, and unless the minimum binds, `count - 1` steps do not.
   */
  lemma SampleCountCovers(opts: Options, duration: real)
    requires opts.targetCount.None? && opts.minThumbs <= opts.maxThumbs
    ensures var count := SampleCount(opts, duration);
      var step := MaxReal(1.0, opts.secondsPerThumb);
      && (count < opts.maxThumbs ==> duration <= count as real * step)
      && (count > opts.minThumbs ==> (count - 1) as real * step < duration)
  {
    var step := MaxReal(1.0, opts.secondsPerThumb);
    var c := Ceil(duration / step);
    CeilTimesStep(duration, step, c);
    ClampedCover(duration, step, c, opts.minThumbs, opts.maxThumbs);
  }

  /** Clamping `c` into `[lo, hi]` keeps the cover where the clamp did not bind. */
  lemma ClampedCover(duration: real, step: real, c: int, lo: int, hi: int)
    requires step >= 1.0
    requires duration <= c as real * step && (c - 1) as real * step < duration
    ensures var r := MinInt(hi, MaxInt(lo, c));
      lo <= hi ==>
      && (r < hi ==> duration <= r as real * step)
      && (r > lo ==> (r - 1) as real * step < duration)
  {
    var r := MinInt(hi, MaxInt(lo, c));
    if lo <= hi {
      if r < hi {
        assert c <= r;
        ScaleMonotone(c as real, r as real, step);
      }
      if r > lo {
        assert r <= c;
        ScaleMonotone((r - 1) as real, (c - 1) as real, step);
      }
    }
  }

  /** `c = ceil(d / step)` means `c` steps cover `d` and `c - 1` steps fall short of it. */
  lemma CeilTimesStep(duration: real, step: real, c: int)
    requires step >= 1.0
    requires duration / step <= c as real < duration / step + 1.0
    ensures duration <= c as real * step
    ensures (c - 1) as real * step < duration
  {
    var q := duration / step;
    assert duration == q * step;
    assert q * step <= c as real * step;
    assert (c - 1) as real < q;
    assert (c - 1) as real * step < q * step;
  }

  lemma ScaleMonotone(a: real, b: real, step: real)
    requires a <= b && step >= 0.0
    ensures a * step <= b * step
  {
    assert b * step - a * step == (b - a) * step;
  }

  /** With the defaults, 600 s gives the maximum of 120 thumbnails and 20 s the minimum of 10. */
  lemma SampleCountExamples()
    ensures SampleCount(DefaultOptions, 600.0) == 120
    ensures SampleCount(DefaultOptions, 20.0) == 10
  {
    assert Ceil(120.0) == 120;
    assert Ceil(4.0) == 4;
  }

  lemma CeilMonotone(x: real, y: real)
    requires x <= y
    ensures Ceil(x) <= Ceil(y)
  {
  }

  /** A longer video never gets fewer thumbnails. */
  lemma SampleCountMonotone(opts: Options, d1: real, d2: real)
    requires d1 <= d2
    ensures SampleCount(opts, d1) <= SampleCount(opts, d2)
  {
    var step := MaxReal(1.0, opts.secondsPerThumb);
    assert d1 / step <= d2 / step;
    CeilMonotone(d1 / step, d2 / step);
  }

  /** `t_i = min(duration - 0.001, duration / count * i)`: the i-th of `count` evenly spaced sample times. */
  function SampleTime(duration: real, count: int, i: int): (t: real)
    requires count > 0
    ensures t < duration
    ensures t <= duration - 0.001
  {
    MinReal(duration - 0.001, duration / count as real * i as real)
  }

  /** The schedule starts at 0, never goes back, and stays below the duration. */
  lemma SampleTimeSchedule(duration: real, count: int, i: int, j: int)
    requires count > 0 && duration >= 0.001
    requires 0 <= i <= j
    ensures SampleTime(duration, count, 0) == 0.0
    ensures SampleTime(duration, count, i) <= SampleTime(duration, count, j)
    ensures 0.0 <= SampleTime(duration, count, i) < duration
  {
    var step := duration / count as real;
    assert step >= 0.0;
    assert step * i as real <= step * j as real;
  }

  /** `min(0.5, duration * 0.02)`: where the backup frame is grabbed. */
  function BackupTime(duration: real): (t: real)
    ensures duration > 0.0 ==> 0.0 < t <= 0.5 && t < duration
  {
    MinReal(0.5, duration * 0.02)
  }

  /** The state of the capture loop: the blobs pushed so far and the current backup frame. */
  datatype Capture = Capture(blobs: seq<Blob>, backup: Option<Frame>)

  /**
   * One sample: a captured frame is pushed and becomes the backup; a failed
   * capture pushes the backup if there is one and otherwise pushes nothing.
   */
  function Step(c: Capture, shot: Option<Frame>): (r: Capture)
    ensures |c.blobs| <= |r.blobs| <= |c.blobs| + 1
    ensures r.blobs[..|c.blobs|] == c.blobs
    ensures |r.blobs| == |c.blobs| + 1 ==> r.backup.Some? && r.blobs[|c.blobs|] == Jpeg(r.backup.value)
    ensures |r.blobs| == |c.blobs| <==> shot.None? && c.backup.None?
    ensures |r.blobs| == |c.blobs| ==> r == c
  {
    if shot.Some? then Capture(c.blobs + [Jpeg(shot.value)], shot)
    else if c.backup.Some? then Capture(c.blobs + [Jpeg(c.backup.value)], c.backup)
    else c
  }

  /** The capture loop over the outcomes of the samples, in sample order. */
  function Sampled(backup0: Option<Frame>, shots: seq<Option<Frame>>): (c: Capture)
    ensures |c.blobs| <= |shots|
    ensures backup0.Some? ==> c.backup.Some?
  {
    if shots == [] then Capture([], backup0)
    else Step(Sampled(backup0, shots[..|shots| - 1]), shots[|shots| - 1])
  }

  /** Reference: the most recent good frame among `shots`, or the initial backup if there is none. */
  function LatestFrame(backup0: Option<Frame>, shots: seq<Option<Frame>>): Option<Frame>
  {
    if shots == [] then backup0
    else if shots[|shots| - 1].Some? then shots[|shots| - 1]
    else LatestFrame(backup0, shots[..|shots| - 1])
  }

  /** How many samples fail before the first success (all of them when none succeeds). */
  function LeadingFailures(shots: seq<Option<Frame>>): (n: nat)
    ensures n <= |shots|
  {
    if shots == [] || shots[0].Some? then 0 else 1 + LeadingFailures(shots[1..])
  }

  /** The samples that cannot contribute: those before the first good frame, when there is no backup. */
  function Skipped(backup0: Option<Frame>, shots: seq<Option<Frame>>): (n: nat)
    ensures n <= |shots|
  {
    if backup0.Some? then 0 else LeadingFailures(shots)
  }

  /** Appending a sample leaves the leading failures alone unless all samples so far failed. */
  lemma {:induction false} LeadingFailuresSnoc(shots: seq<Option<Frame>>, shot: Option<Frame>)
    ensures LeadingFailures(shots) < |shots| ==> LeadingFailures(shots + [shot]) == LeadingFailures(shots)
    ensures LeadingFailures(shots) == |shots| ==>
      LeadingFailures(shots + [shot]) == if shot.Some? then |shots| else |shots| + 1
  {
    if shots != [] {
      assert (shots + [shot])[1..] == shots[1..] + [shot];
      LeadingFailuresSnoc(shots[1..], shot);
    }
  }

  /** The latest frame exists exactly when a backup existed or some sample succeeded. */
  lemma {:induction false} LatestFrameNone(backup0: Option<Frame>, shots: seq<Option<Frame>>)
    ensures LatestFrame(backup0, shots).None? <==> backup0.None? && LeadingFailures(shots) == |shots|
  {
    if shots != [] {
      var init := shots[..|shots| - 1];
      LatestFrameNone(backup0, init);
      LeadingFailuresSnoc(init, shots[|shots| - 1]);
      assert init + [shots[|shots| - 1]] == shots;
    }
  }

  /** Blob `j` is the latest good frame as of sample `Skipped + j`. */
  ghost predicate PushedLatest(backup0: Option<Frame>, shots: seq<Option<Frame>>, blobs: seq<Blob>, j: nat)
  {
    var k := Skipped(backup0, shots) + j + 1;
    && j < |blobs| && k <= |shots|
    && LatestFrame(backup0, shots[..k]).Some?
    && blobs[j] == Jpeg(LatestFrame(backup0, shots[..k]).value)
  }

  /**
   * What the loop produces, sample by sample: the first `Skipped` samples
   * contribute nothing, and every later sample contributes the latest good
   * frame at that point. The backup carried along is the latest good frame.
   */
  lemma SampledShape(backup0: Option<Frame>, shots: seq<Option<Frame>>)
    ensures Sampled(backup0, shots).backup == LatestFrame(backup0, shots)
    ensures |Sampled(backup0, shots).blobs| == |shots| - Skipped(backup0, shots)
    ensures forall j :: 0 <= j < |Sampled(backup0, shots).blobs| ==>
      PushedLatest(backup0, shots, Sampled(backup0, shots).blobs, j)
  {
    SampledBackup(backup0, shots);
    SampledCount(backup0, shots);
    SampledPushed(backup0, shots);
  }

  /** The backup the loop carries is the latest good frame. */
  lemma {:induction false} SampledBackup(backup0: Option<Frame>, shots: seq<Option<Frame>>)
    ensures Sampled(backup0, shots).backup == LatestFrame(backup0, shots)
  {
    if shots != [] {
      SampledBackup(backup0, shots[..|shots| - 1]);
    }
  }

  /** The first `Skipped` samples push nothing and every later sample pushes one blob. */
  lemma {:induction false} SampledCount(backup0: Option<Frame>, shots: seq<Option<Frame>>)
    ensures |Sampled(backup0, shots).blobs| == |shots| - Skipped(backup0, shots)
  {
    if shots != [] {
      var init := shots[..|shots| - 1];
      var shot := shots[|shots| - 1];
      assert init + [shot] == shots;
      SampledCount(backup0, init);
      SampledBackup(backup0, init);
      LeadingFailuresSnoc(init, shot);
      LatestFrameNone(backup0, init);
    }
  }

  /** Blob `j` is the latest good frame as of its sample. */
  lemma {:induction false} SampledPushed(backup0: Option<Frame>, shots: seq<Option<Frame>>)
    ensures forall j :: 0 <= j < |Sampled(backup0, shots).blobs| ==>
      PushedLatest(backup0, shots, Sampled(backup0, shots).blobs, j)
  {
    if shots != [] {
      var init := shots[..|shots| - 1];
      var shot := shots[|shots| - 1];
      assert init + [shot] == shots;
      SampledPushed(backup0, init);
      SampledCount(backup0, init);
      SampledCount(backup0, shots);
      SampledBackup(backup0, shots);
      var prev := Sampled(backup0, init);
      var c := Sampled(backup0, shots);
      assert c == Step(prev, shot);
      if |c.blobs| > |prev.blobs| {
        SampledPushedStep(backup0, init, shot, prev.blobs, c);
      } else {
        SampledBackup(backup0, init);
        LatestFrameNone(backup0, init);
      }
    }
  }

  /** The inductive step of `SampledPushed` for a sample that pushes a blob. */
  lemma SampledPushedStep(backup0: Option<Frame>, init: seq<Option<Frame>>, shot: Option<Frame>,
                          prevBlobs: seq<Blob>, c: Capture)
    requires forall j :: 0 <= j < |prevBlobs| ==> PushedLatest(backup0, init, prevBlobs, j)
    requires |prevBlobs| == |init| - Skipped(backup0, init)
    requires |c.blobs| == |init| + 1 - Skipped(backup0, init + [shot]) == |prevBlobs| + 1
    requires c.blobs[..|prevBlobs|] == prevBlobs
    requires c.backup.Some? && c.blobs[|prevBlobs|] == Jpeg(c.backup.value)
    requires c.backup == LatestFrame(backup0, init + [shot])
    ensures forall j :: 0 <= j < |c.blobs| ==> PushedLatest(backup0, init + [shot], c.blobs, j)
  {
    forall j | 0 <= j < |c.blobs|
      ensures PushedLatest(backup0, init + [shot], c.blobs, j)
    {
      if j < |prevBlobs| {
        PushedLatestExtend(backup0, init, shot, prevBlobs, c.blobs, j);
      } else {
        assert (init + [shot])[..Skipped(backup0, init) + j + 1] == init + [shot];
      }
    }
  }

  /** A blob pushed for an earlier sample keeps its meaning when one more sample follows. */
  lemma PushedLatestExtend(backup0: Option<Frame>, init: seq<Option<Frame>>, shot: Option<Frame>,
                           prevBlobs: seq<Blob>, blobs: seq<Blob>, j: nat)
    requires PushedLatest(backup0, init, prevBlobs, j)
    requires Skipped(backup0, init + [shot]) == Skipped(backup0, init)
    requires |prevBlobs| <= |blobs| && blobs[..|prevBlobs|] == prevBlobs
    ensures PushedLatest(backup0, init + [shot], blobs, j)
  {
    var k := Skipped(backup0, init) + j + 1;
    assert (init + [shot])[..k] == init[..k];
    assert blobs[j] == prevBlobs[j];
  }

  /**
   * The loop's length bounds: never more blobs than samples, exactly one per
   * sample once a backup exists, and none only when every capture failed.
   */
  lemma SampledLength(backup0: Option<Frame>, shots: seq<Option<Frame>>)
    ensures |Sampled(backup0, shots).blobs| <= |shots|
    ensures backup0.Some? ==> |Sampled(backup0, shots).blobs| == |shots|
    ensures Sampled(backup0, shots).blobs == [] <==>
      Sampled(backup0, shots).backup.None? || shots == []
    ensures Sampled(backup0, shots).backup.None? <==>
      backup0.None? && forall i :: 0 <= i < |shots| ==> shots[i].None?
  {
    SampledShape(backup0, shots);
    LatestFrameNone(backup0, shots);
    AllFailed(shots);
  }

  /** All samples fail exactly when the leading failures are all of them. */
  lemma {:induction false} AllFailed(shots: seq<Option<Frame>>)
    ensures LeadingFailures(shots) == |shots| <==> forall i :: 0 <= i < |shots| ==> shots[i].None?
  {
    if shots != [] {
      AllFailed(shots[1..]);
      assert forall i :: 1 <= i < |shots| ==> shots[i] == shots[1..][i - 1];
    }
  }

  /** The loop pushes only JPEGs of frames. */
  lemma {:induction false} SampledJpeg(backup0: Option<Frame>, shots: seq<Option<Frame>>)
    ensures forall i :: 0 <= i < |Sampled(backup0, shots).blobs| ==> Sampled(backup0, shots).blobs[i].Jpeg?
  {
    if shots != [] {
      var prev := Sampled(backup0, shots[..|shots| - 1]);
      SampledJpeg(backup0, shots[..|shots| - 1]);
      var c := Sampled(backup0, shots);
      assert c == Step(prev, shots[|shots| - 1]);
      assert forall i :: 0 <= i < |prev.blobs| ==> c.blobs[i] == prev.blobs[i];
    }
  }

  /** After the loop: an empty result with a backup becomes `[backup]`. */
  function Finish(c: Capture): seq<Blob>
  {
    if c.blobs == [] && c.backup.Some? then [Jpeg(c.backup.value)] else c.blobs
  }

  /** The sample outcomes: sample `i` is grabbed at attempt `i + 1` and time `t_i`. */
  function Shots(grab: (nat, real) -> Option<Frame>, duration: real, count: int, n: nat): (shots: seq<Option<Frame>>)
    requires n <= count
    ensures |shots| == n
    ensures forall i :: 0 <= i < n ==> shots[i] == grab(i + 1, SampleTime(duration, count, i))
  {
    if n == 0 then [] else Shots(grab, duration, count, n - 1) + [grab(n, SampleTime(duration, count, n - 1))]
  }

  /** The samples taken for a video of this duration under these options. */
  function Schedule(grab: (nat, real) -> Option<Frame>, duration: real, count: int): (shots: seq<Option<Frame>>)
    ensures |shots| == MaxInt(count, 0)
    ensures forall i :: 0 <= i < |shots| ==> shots[i] == grab(i + 1, SampleTime(duration, count, i))
  {
    if count <= 0 then [] else Shots(grab, duration, count, count)
  }

  /** What `generateThumbnails` resolves to. */
  function Thumbnails(file: Option<SourceFile>, opts: Options, metadata: Number,
                      grab: (nat, real) -> Option<Frame>): (r: seq<Blob>)
    ensures Classify(file) == Video ==> forall i :: 0 <= i < |r| ==> r[i].Jpeg?
  {
    match Classify(file)
    case Image => [Original(file.value)]
    case Unsupported => []
    case Video =>
      var duration := EffectiveDuration(opts.fixedDuration, metadata);
      var count := SampleCount(opts, duration);
      var c := Sampled(grab(0, BackupTime(duration)), Schedule(grab, duration, count));
      SampledJpeg(grab(0, BackupTime(duration)), Schedule(grab, duration, count));
      Finish(c)
  }

  /** An image is returned alone and unchanged; anything else that is not a video gives nothing. */
  lemma ThumbnailsOfNonVideo(file: Option<SourceFile>, opts: Options, metadata: Number,
                             grab: (nat, real) -> Option<Frame>)
    ensures Classify(file) == Image ==> Thumbnails(file, opts, metadata, grab) == [Original(file.value)]
    ensures Classify(file) == Unsupported ==> Thumbnails(file, opts, metadata, grab) == []
  {
  }

  /**
   * For a video with `count` samples: at most `count` thumbnails (or the lone
   * backup when `count` is not positive); exactly `count` when the backup grab
   * succeeded; and none only when the backup grab and every sample failed.
   */
  lemma ThumbnailsOfVideo(file: Option<SourceFile>, opts: Options, metadata: Number,
                          grab: (nat, real) -> Option<Frame>)
    requires Classify(file) == Video
    ensures var duration := EffectiveDuration(opts.fixedDuration, metadata);
      var count := SampleCount(opts, duration);
      var backup := grab(0, BackupTime(duration));
      var r := Thumbnails(file, opts, metadata, grab);
      && |r| <= MaxInt(count, 1)
      && (count > 0 && backup.Some? ==> |r| == count)
      && (count <= 0 && backup.Some? ==> r == [Jpeg(backup.value)])
      && (r == [] <==> backup.None? && forall i :: 0 <= i < count ==> grab(i + 1, SampleTime(duration, count, i)).None?)
  {
    var duration := EffectiveDuration(opts.fixedDuration, metadata);
    var count := SampleCount(opts, duration);
    var backup := grab(0, BackupTime(duration));
    var shots := Schedule(grab, duration, count);
    SampledLength(backup, shots);
    var c := Sampled(backup, shots);
    if count <= 0 {
      assert c == Capture([], backup);
    } else {
      assert forall i :: 0 <= i < count ==> shots[i] == grab(i + 1, SampleTime(duration, count, i));
    }
  }

  /**
   * `generateThumbnails`: classify, then for a video grab the backup frame,
   * run the sampling loop and fall back to the backup when nothing was pushed.
   */
  method GenerateThumbnails(file: Option<SourceFile>, opts: Options, metadata: Number,
                            grab: (nat, real) -> Option<Frame>) returns (blobs: seq<Blob>)
    ensures blobs == Thumbnails(file, opts, metadata, grab)
  {
    var kind := Classify(file);
    if kind == Image {
      return [Original(file.value)];
    }
    if kind != Video {
      return [];
    }
    var duration := EffectiveDuration(opts.fixedDuration, metadata);
    var count := SampleCount(opts, duration);
    var backup := grab(0, BackupTime(duration));
    ghost var backup0 := backup;
    ghost var shots := Schedule(grab, duration, count);
    blobs := [];
    var i := 0;
    while i < count
      invariant 0 <= i <= |shots|
      invariant Sampled(backup0, shots[..i]) == Capture(blobs, backup)
    {
      var t := SampleTime(duration, count, i);
      var shot := grab(i + 1, t);
      assert shot == shots[i];
      assert shots[..i + 1][..i] == shots[..i];
      assert Sampled(backup0, shots[..i + 1]) == Step(Capture(blobs, backup), shot);
      if shot.Some? {
        blobs := blobs + [Jpeg(shot.value)];
        backup := shot;
      } else if backup.Some? {
        blobs := blobs + [Jpeg(backup.value)];
      }
      i := i + 1;
    }
    assert shots[..|shots|] == shots;
    assert Thumbnails(file, opts, metadata, grab) == Finish(Capture(blobs, backup));
    if blobs == [] && backup.Some? {
      blobs := blobs + [Jpeg(backup.value)];
    }
  }

  // ---------- seekTo ----------

  /** What settles a pending seek. */
  datatype SeekEvent = Seeked | MediaError | TimerFired

  /** How a seek settles: resolved, or rejected with the error's message. */
  datatype SeekOutcome = Resolved | Rejected(message: string)

  function OutcomeOf(e: SeekEvent): (o: SeekOutcome)
    ensures o == Resolved <==> e == Seeked
  {
    match e
    case Seeked => Resolved
    case MediaError => Rejected("seek error")
    case TimerFired => Rejected("seek timeout")
  }

  /** Reference for the `done` guard: the outcome of a sequence of events, or None before the first. */
  function Settled(events: seq<SeekEvent>): (r: Option<SeekOutcome>)
    ensures r.None? <==> events == []
  {
    if events == [] then None
    else
      var prev := Settled(events[..|events| - 1]);
      if prev.Some? then prev else Some(OutcomeOf(events[|events| - 1]))
  }

  /** The first event decides; every later one is ignored. */
  lemma {:induction false} SettledByFirst(events: seq<SeekEvent>)
    ensures events == [] <==> Settled(events).None?
    ensures events != [] ==> Settled(events) == Some(OutcomeOf(events[0]))
  {
    if events != [] {
      var init := events[..|events| - 1];
      SettledByFirst(init);
      if init != [] {
        assert init[0] == events[0];
      }
    }
  }

  /**
   * `max(0, min(video.duration || Infinity, timeSec))`: a duration that is 0
   * or NaN does not cap the target.
   */
  function SeekTarget(videoDuration: Number, timeSec: real): (t: real)
    ensures t >= 0.0
    ensures videoDuration.Finite? && videoDuration.value > 0.0 ==> t <= videoDuration.value
    ensures timeSec <= 0.0 ==> t == 0.0
    ensures videoDuration.Finite? && videoDuration.value > 0.0 && timeSec >= videoDuration.value
      ==> t == videoDuration.value
    ensures (videoDuration.Finite? && videoDuration.value < 0.0) || (videoDuration.Infinity? && videoDuration.negative)
      ==> t == 0.0
    ensures (&& 0.0 <= timeSec
             && (videoDuration.Finite? && videoDuration.value != 0.0 ==> timeSec <= videoDuration.value)
             && !(videoDuration.Infinity? && videoDuration.negative))
            ==> t == timeSec
  {
    if videoDuration.Finite? && videoDuration.value != 0.0 then MaxReal(0.0, MinReal(videoDuration.value, timeSec))
    else if videoDuration.Infinity? && videoDuration.negative then 0.0
    else MaxReal(0.0, timeSec)
  }

  /** The media element as far as `seekTo` touches it. */
  class VideoElement {
    var duration: Number
    var currentTime: real
    /** Whether `onseeked` / `onerror` hold a handler. */
    var seekedHandler: bool
    var errorHandler: bool

    constructor (duration: Number)
      ensures this.duration == duration && currentTime == 0.0
      ensures !seekedHandler && !errorHandler
    {
      this.duration := duration;
      currentTime := 0.0;
      seekedHandler := false;
      errorHandler := false;
    }
  }

  /** One call of `seekTo`: the promise's settle machine. */
  class PendingSeek {
    const video: VideoElement
    var done: bool
    var timerArmed: bool
    var outcome: Option<SeekOutcome>
    /** The events delivered so far, in order. */
    ghost var events: seq<SeekEvent>

    ghost predicate Valid()
      reads this
    {
      && outcome == Settled(events)
      && (done <==> outcome.Some?)
      && (done ==> !timerArmed)
    }

    /**
     * Start a seek: arm the timer, install both handlers, and move the play
     * head to the clamped target plus the 0.0001 s nudge.
     */
    constructor Start(video: VideoElement, timeSec: real)
      modifies video
      ensures Valid() && this.video == video
      ensures !done && timerArmed && events == []
      ensures video.seekedHandler && video.errorHandler
      ensures video.currentTime == SeekTarget(old(video.duration), timeSec) + 0.0001
      ensures video.duration == old(video.duration)
    {
      this.video := video;
      done := false;
      timerArmed := true;
      outcome := None;
      events := [];
      new;
      video.seekedHandler := true;
      video.errorHandler := true;
      video.currentTime := SeekTarget(video.duration, timeSec) + 0.0001;
    }

    /**
     * A handler or the timer runs. Before settling it marks the seek done,
     * clears the timer and both handlers, and settles; once done it does nothing.
     */
    method Deliver(e: SeekEvent)
      requires Valid()
      modifies this, video
      ensures Valid() && events == old(events) + [e]
      ensures old(done) ==> done == old(done) && timerArmed == old(timerArmed) && outcome == old(outcome)
      ensures old(done) ==> unchanged(video)
      ensures !old(done) ==> done && !timerArmed && outcome == Some(OutcomeOf(e))
      ensures !old(done) ==> !video.seekedHandler && !video.errorHandler
      ensures video.currentTime == old(video.currentTime) && video.duration == old(video.duration)
    {
      events := events + [e];
      assert events[..|events| - 1] == old(events);
      if done {
        return;
      }
      done := true;
      timerArmed := false;
      video.seekedHandler := false;
      video.errorHandler := false;
      outcome := Some(OutcomeOf(e));
    }
  }
}
