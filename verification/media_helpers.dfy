/**
 * Probing the duration of an uploaded media file. An image is 3 seconds; for
 * audio and video a media element loads the file, a 5 s timer guards the load,
 * and the first of these to happen decides the resolved value:
 * the timer fires (null for a QuickTime file, otherwise 30), loading fails
 * (null for QuickTime, otherwise 5), metadata arrives for audio (its
 * duration), or, for anything else, a test seek completes (null when the
 * element has no picture, otherwise the duration it reports).
 *
 * The element is abstracted as the sequence of events it delivers.
 */
module MediaHelpers {
  import opened Wrappers
  import opened JsNumbers
  import opened JsStrings

  datatype MediaFile = MediaFile(name: string, mimeType: string)

  /** An event the element (or the timer) delivers, with what the element reports at that moment. */
  datatype LoadEvent =
    | TimerFired
    | LoadedMetadata(duration: Number)
    | Seeked(videoWidth: Option<int>, duration: Number)
    | LoadError

  /**
   * The promise and the handlers it has installed: whether the timer is still
   * pending, whether the test seek's `onseeked` is installed, and the resolved
   * value (None while pending; `Some(None)` is null).
   */
  datatype Probe = Probe(timerArmed: bool, seekHandler: bool, resolved: Option<Option<Number>>)

  /** A name ending in `.mov` (in any case) or the `video/quicktime` type. */
  predicate IsMov(file: MediaFile) {
    EndsWith(ToLower(file.name), ".mov") || file.mimeType == "video/quicktime"
  }

  /** `resolve(v)`: only the first call has an effect. */
  function Settle(p: Probe, v: Option<Number>): (q: Probe)
    ensures p.resolved.Some? ==> q.resolved == p.resolved
    ensures p.resolved.None? ==> q.resolved == Some(v)
  {
    if p.resolved.Some? then p else p.(resolved := Some(v))
  }

  /**
   * The handlers' reaction to one event: a resolved value is never replaced,
   * metadata and errors clear the timer, and a timer already cleared or a
   * seek without its handler changes nothing.
   */
  function Handle(file: MediaFile, p: Probe, e: LoadEvent): (r: Probe)
    ensures p.resolved.Some? ==> r.resolved == p.resolved
    ensures e.LoadedMetadata? || e.LoadError? ==> !r.timerArmed
    ensures e.TimerFired? && !p.timerArmed ==> r == p
    ensures e.Seeked? && !p.seekHandler ==> r == p
  {
    match e
    case TimerFired =>
      if !p.timerArmed then p
      else Settle(p.(timerArmed := false), if IsMov(file) then None else Some(Finite(30.0)))
    case LoadedMetadata(duration) =>
      if StartsWith(file.mimeType, "audio") then Settle(p.(timerArmed := false), Some(duration))
      else p.(timerArmed := false, seekHandler := true)
    case Seeked(videoWidth, duration) =>
      if !p.seekHandler then p
      else if videoWidth == Some(0) then Settle(p, None)
      else Settle(p, Some(duration))
    case LoadError =>
      Settle(p.(timerArmed := false), if IsMov(file) then None else Some(Finite(5.0)))
  }

  /**
   * The state after the events so far, starting with the timer armed and no
   * seek pending. The test seek is installed only once the timer is cleared,
   * and while nothing is resolved the timer or the test seek is still pending.
   */
  function Run(file: MediaFile, events: seq<LoadEvent>): (r: Probe)
    ensures r.seekHandler ==> !r.timerArmed
    ensures r.resolved.None? ==> r.timerArmed || r.seekHandler
  {
    if events == [] then Probe(true, false, None)
    else Handle(file, Run(file, events[..|events| - 1]), events[|events| - 1])
  }

  /** `getMediaDuration`: what the promise resolves to after these events (None while pending). */
  function MediaDuration(file: MediaFile, events: seq<LoadEvent>): (r: Option<Option<Number>>)
    ensures StartsWith(file.mimeType, "image") ==> r == Some(Some(Finite(3.0)))
    ensures !StartsWith(file.mimeType, "image") && events == [] ==> r.None?
  {
    if StartsWith(file.mimeType, "image") then Some(Some(Finite(3.0)))
    else Run(file, events).resolved
  }

  /** Once resolved, the value never changes, whatever comes later. */
  lemma {:induction false} ResolvedIsFinal(file: MediaFile, events: seq<LoadEvent>, later: seq<LoadEvent>)
    requires Run(file, events).resolved.Some?
    ensures Run(file, events + later).resolved == Run(file, events).resolved
    decreases |later|
  {
    if later == [] {
      assert events + later == events;
    } else {
      var init := later[..|later| - 1];
      assert (events + later)[..|events + later| - 1] == events + init;
      ResolvedIsFinal(file, events, init);
    }
  }

  /** Metadata and a load error both clear the timer, and a cleared timer stays cleared. */
  lemma {:induction false} TimerStaysCleared(file: MediaFile, events: seq<LoadEvent>, later: seq<LoadEvent>)
    requires events != [] && (events[|events| - 1].LoadedMetadata? || events[|events| - 1].LoadError?)
    ensures !Run(file, events + later).timerArmed
    decreases |later|
  {
    if later == [] {
      assert events + later == events;
    } else {
      var init := later[..|later| - 1];
      assert (events + later)[..|events + later| - 1] == events + init;
      TimerStaysCleared(file, events, init);
    }
  }

  /** After metadata or an error, the timer firing changes nothing. */
  lemma TimeoutAfterLoadIgnored(file: MediaFile, events: seq<LoadEvent>, later: seq<LoadEvent>)
    requires events != [] && (events[|events| - 1].LoadedMetadata? || events[|events| - 1].LoadError?)
    ensures Run(file, events + later + [TimerFired]) == Run(file, events + later)
  {
    TimerStaysCleared(file, events, later);
    var all := events + later + [TimerFired];
    assert all[..|all| - 1] == events + later;
  }

  /** The timer alone: null for QuickTime, 30 otherwise. */
  lemma TimeoutOutcome(file: MediaFile)
    requires !StartsWith(file.mimeType, "image")
    ensures MediaDuration(file, [TimerFired]) == if IsMov(file) then Some(None) else Some(Some(Finite(30.0)))
  {
    assert [TimerFired][..0] == [];
    assert Run(file, [TimerFired]) == Handle(file, Probe(true, false, None), TimerFired);
  }

  /** A load error first: null for QuickTime, 5 otherwise. */
  lemma ErrorOutcome(file: MediaFile, later: seq<LoadEvent>)
    requires !StartsWith(file.mimeType, "image")
    ensures MediaDuration(file, [LoadError] + later) == if IsMov(file) then Some(None) else Some(Some(Finite(5.0)))
  {
    assert [LoadError][..0] == [];
    ResolvedIsFinal(file, [LoadError], later);
  }

  /** Audio resolves to the duration the metadata reports. */
  lemma AudioOutcome(file: MediaFile, duration: Number, later: seq<LoadEvent>)
    requires StartsWith(file.mimeType, "audio")
    ensures MediaDuration(file, [LoadedMetadata(duration)] + later) == Some(Some(duration))
  {
    assert !StartsWith(file.mimeType, "image") by {
      assert file.mimeType[..5] == "audio";
    }
    assert [LoadedMetadata(duration)][..0] == [];
    ResolvedIsFinal(file, [LoadedMetadata(duration)], later);
  }

  /**
   * A video (or any non-audio file) waits for the test seek: a width of 0 is
   * null, anything else resolves to the duration reported then — for WebM
   * and other types alike.
   */
  lemma VideoOutcome(file: MediaFile, metadata: Number, videoWidth: Option<int>, duration: Number)
    requires !StartsWith(file.mimeType, "image") && !StartsWith(file.mimeType, "audio")
    ensures MediaDuration(file, [LoadedMetadata(metadata)]).None?
    ensures MediaDuration(file, [LoadedMetadata(metadata), Seeked(videoWidth, duration)])
         == if videoWidth == Some(0) then Some(None) else Some(Some(duration))
  {
    var first := [LoadedMetadata(metadata)];
    assert first[..0] == [];
    assert Run(file, first) == Probe(false, true, None);
    assert first + [Seeked(videoWidth, duration)] == [LoadedMetadata(metadata), Seeked(videoWidth, duration)];
    assert [LoadedMetadata(metadata), Seeked(videoWidth, duration)][..1] == first;
  }

  /** A seek event before metadata finds no handler and is ignored. */
  lemma EarlySeekIgnored(file: MediaFile, videoWidth: Option<int>, duration: Number)
    ensures Run(file, [Seeked(videoWidth, duration)]) == Run(file, [])
  {
    assert [Seeked(videoWidth, duration)][..0] == [];
  }
}
