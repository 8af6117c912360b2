/**
 * Decoding an animated GIF into a timeline of frames: every frame gets its
 * duration in seconds (0.1 s when the GIF gives none) and a start time that is
 * the sum of the durations before it.
 *
 * The decoder is abstracted: whether the host has `ImageDecoder`, and the
 * images of the selected track (absent when there is none), are parameters.
 */
module GifHelper {
  import opened Wrappers

  /** A decoded image: its duration in microseconds, None when the GIF leaves it unset. */
  datatype DecodedImage = DecodedImage(id: nat, durationUs: Option<int>)

  /** One entry of `frames`. */
  datatype GifFrame = GifFrame(image: DecodedImage, duration: real, startTime: real)

  /** What `decodeGifFrames` resolves to. */
  datatype Timeline = Timeline(frames: seq<GifFrame>, totalDuration: real)

  /** `image.duration ? image.duration / 1_000_000 : 0.1` */
  function FrameSeconds(image: DecodedImage): (s: real)
    ensures image.durationUs.None? || image.durationUs.value == 0 ==> s == 0.1
    ensures image.durationUs.Some? && image.durationUs.value != 0 ==> s * 1000000.0 == image.durationUs.value as real
    ensures image.durationUs.None? || image.durationUs.value >= 0 ==> s > 0.0
  {
    if image.durationUs.Some? && image.durationUs.value != 0 then image.durationUs.value as real / 1000000.0
    else 0.1
  }

  /** Reference: the sum of the durations of the first `n` images. */
  function StartTime(images: seq<DecodedImage>, n: nat): (r: real)
    requires n <= |images|
    ensures NonNegativeDurations(images) ==> r >= 0.0 && (r == 0.0 <==> n == 0)
  {
    if n == 0 then 0.0 else StartTime(images, n - 1) + FrameSeconds(images[n - 1])
  }

  /** Frame `i` of the timeline: image `i`, its duration, and the sum of the durations before it. */
  function Entry(images: seq<DecodedImage>, i: nat): GifFrame
    requires i < |images|
  {
    GifFrame(images[i], FrameSeconds(images[i]), StartTime(images, i))
  }

  /** No image has a negative duration. */
  predicate NonNegativeDurations(images: seq<DecodedImage>) {
    forall i :: 0 <= i < |images| ==> images[i].durationUs.None? || images[i].durationUs.value >= 0
  }

  /**
   * The frame loop of `decodeGifFrames`: walk the frames in index order,
   * giving each its duration and the running total as its start time.
   */
  method AccumulateFrames(images: seq<DecodedImage>) returns (t: Timeline)
    ensures |t.frames| == |images|
    ensures forall i :: 0 <= i < |images| ==> t.frames[i] == Entry(images, i)
    ensures t.totalDuration == StartTime(images, |images|)
  {
    var frames: seq<GifFrame> := [];
    var accumulatedDuration := 0.0;
    var frameCount := |images|;
    for i := 0 to frameCount
      invariant |frames| == i
      invariant forall k :: 0 <= k < i ==> frames[k] == Entry(images, k)
      invariant accumulatedDuration == StartTime(images, i)
    {
      var image := images[i];
      var duration := FrameSeconds(image);
      frames := frames + [GifFrame(image, duration, accumulatedDuration)];
      accumulatedDuration := accumulatedDuration + duration;
    }
    return Timeline(frames, accumulatedDuration);
  }

  /**
   * `decodeGifFrames`: fail without `ImageDecoder` or without a selected
   * track; otherwise decode the selected track's frames.
   */
  method DecodeGifFrames(hasImageDecoder: bool, selectedTrack: Option<seq<DecodedImage>>)
    returns (r: Result<Timeline, string>)
    ensures r.Failure? <==> !hasImageDecoder || selectedTrack.None?
    ensures !hasImageDecoder ==> r == Failure("Browser does not support ImageDecoder")
    ensures r.Success? ==>
      var images := selectedTrack.value;
      && |r.value.frames| == |images|
      && (forall i :: 0 <= i < |images| ==> r.value.frames[i] == Entry(images, i))
      && r.value.totalDuration == StartTime(images, |images|)
  {
    if !hasImageDecoder {
      return Failure("Browser does not support ImageDecoder");
    }
    if selectedTrack.None? {
      return Failure("GIF 解碼失敗：找不到影像軌道 (selectedTrack is null)");
    }
    var timeline := AccumulateFrames(selectedTrack.value);
    return Success(timeline);
  }

  /** The first frame starts at 0; the total is the last start time plus the last duration. */
  lemma StartTimeEnds(images: seq<DecodedImage>)
    ensures StartTime(images, 0) == 0.0
    ensures images != [] ==>
      StartTime(images, |images|) == StartTime(images, |images| - 1) + FrameSeconds(images[|images| - 1])
  {
  }

  /** With no negative duration, start times strictly increase from frame to frame. */
  lemma {:induction false} StartTimeIncreasing(images: seq<DecodedImage>, i: nat, j: nat)
    requires NonNegativeDurations(images)
    requires i < j <= |images|
    ensures StartTime(images, i) < StartTime(images, j)
    decreases j - i
  {
    assert FrameSeconds(images[j - 1]) > 0.0;
    if i < j - 1 {
      StartTimeIncreasing(images, i, j - 1);
    }
  }

  /** The total of a sequence of frames is the total of its first part plus that of the rest. */
  lemma {:induction false} StartTimeSplit(a: seq<DecodedImage>, b: seq<DecodedImage>)
    ensures StartTime(a + b, |a + b|) == StartTime(a, |a|) + StartTime(b, |b|)
    decreases |b|
  {
    if b == [] {
      assert a + b == a;
    } else {
      var init := b[..|b| - 1];
      assert (a + b)[..|a + b| - 1] == a + init;
      StartTimePrefix(a + b, |a + b| - 1, |a + b| - 1);
      StartTimePrefix(b, |b| - 1, |b| - 1);
      StartTimeSplit(a, init);
    }
  }

  /** A start time depends only on the frames before it. */
  lemma {:induction false} StartTimePrefix(images: seq<DecodedImage>, n: nat, m: nat)
    requires m <= n <= |images|
    ensures StartTime(images[..n], m) == StartTime(images, m)
  {
    if m > 0 {
      assert images[..n][m - 1] == images[m - 1];
      StartTimePrefix(images, n, m - 1);
    }
  }

  /** Three frames of 100 ms, 200 ms and an unset duration start at 0, 0.1 and 0.3 and last 0.4 s in all. */
  lemma TimelineExample()
    ensures var images := [DecodedImage(0, Some(100000)), DecodedImage(1, Some(200000)), DecodedImage(2, None)];
      && StartTime(images, 1) == 0.1
      && StartTime(images, 2) == 0.3
      && StartTime(images, 3) == 0.4
  {
  }
}
