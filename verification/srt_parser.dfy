/**
 * SubRip (.srt) subtitle parsing: time stamps `HH:MM:SS,mmm` become seconds,
 * the text is cut into blank-line separated blocks, and each well-formed block
 * becomes one cue `{start, end, duration, text}`.
 *
 * Reading a missing piece of a malformed time line throws a TypeError in the
 * source, which aborts the whole parse; here that is a Failure.
 */
module SrtParser {
  import opened Wrappers
  import opened JsNumbers
  import opened JsStrings

  /** What parsing throws: reading a property of `undefined`. */
  datatype ParseError = TypeError(message: string)

  /** One subtitle cue. Times are seconds and are NaN where a field holds no digits. */
  datatype Cue = Cue(start: Number, end: Number, duration: Number, text: string)

  /**
   * `hours * 3600 + minutes * 60 + seconds + millis / 1000` for the values
   * `parseInt` can return: NaN in any field makes the sum NaN.
   */
  function Seconds(hours: Number, minutes: Number, seconds: Number, millis: Number): (r: Number)
    ensures r.NaN? || r.Finite?
    ensures r.Finite? <==> hours.Finite? && minutes.Finite? && seconds.Finite? && millis.Finite?
  {
    if hours.Finite? && minutes.Finite? && seconds.Finite? && millis.Finite? then
      Finite(hours.value * 3600.0 + minutes.value * 60.0 + seconds.value + millis.value / 1000.0)
    else NaN
  }

  /** On NaN-or-finite fields, `Seconds` is exactly the JavaScript expression it stands for. */
  lemma SecondsIsJsSum(hours: Number, minutes: Number, seconds: Number, millis: Number)
    requires hours.NaN? || hours.Finite?
    requires minutes.NaN? || minutes.Finite?
    requires seconds.NaN? || seconds.Finite?
    requires millis.NaN? || millis.Finite?
    ensures Seconds(hours, minutes, seconds, millis)
         == Add(Add(Add(Times(hours, 3600.0), Times(minutes, 60.0)), seconds), Over(millis, 1000.0))
  {
  }

  /**
   * `HH:MM:SS,mmm` to seconds. The empty string is 0; fewer than three
   * colon-separated fields throws; a field without digits makes the sum NaN.
   */
  function ParseTime(s: string): (r: Result<Number, ParseError>)
    ensures s == [] ==> r == Success(Finite(0.0))
    ensures r.Failure? <==> s != [] && |Split(s, ":")| < 3
    ensures r.Success? ==> r.value.NaN? || r.value.Finite?
  {
    if s == [] then Success(Finite(0.0))
    else
      var parts := Split(s, ":");
      if |parts| < 3 then Failure(TypeError("parts[2] is undefined"))
      else
        var secondsParts := Split(parts[2], ",");
        // parseInt(undefined) is NaN when there is no comma
        var millis := if |secondsParts| >= 2 then ParseInt(secondsParts[1]) else NaN;
        Success(Seconds(ParseInt(parts[0]), ParseInt(parts[1]), ParseInt(secondsParts[0]), millis))
  }

  /** Characters that cannot occur in a run of digits. */
  lemma DigitsAvoid(d: string, c: char)
    requires AllDigits(d) && !IsDigit(c)
    ensures c !in d
  {
  }

  /** The colon and comma split of a time stamp written as four runs of digits. */
  lemma SplitTimeFields(h: string, m: string, sec: string, ms: string)
    requires AllDigits(h) && AllDigits(m) && AllDigits(sec) && AllDigits(ms)
    ensures Split(h + ":" + m + ":" + sec + "," + ms, ":") == [h, m, sec + "," + ms]
    ensures Split(sec + "," + ms, ",") == [sec, ms]
  {
    DigitsAvoid(h, ':');
    DigitsAvoid(m, ':');
    DigitsAvoid(sec, ':');
    DigitsAvoid(ms, ':');
    DigitsAvoid(sec, ',');
    DigitsAvoid(ms, ',');
    var tail := sec + "," + ms;
    assert ':' !in tail;
    assert h + ":" + m + ":" + sec + "," + ms == h + ":" + (m + ":" + tail);
    SplitAfterFirst(h, ":", m + ":" + tail);
    SplitAfterFirst(m, ":", tail);
    SplitWithoutSeparator(tail, ":");
    SplitAfterFirst(sec, ",", ms);
    SplitWithoutSeparator(ms, ",");
  }

  /** A time stamp written as four fields reads each field with `parseInt`. */
  lemma ParseTimeOfFields(h: string, m: string, sec: string, ms: string)
    requires AllDigits(h) && AllDigits(m) && AllDigits(sec) && AllDigits(ms)
    ensures ParseTime(h + ":" + m + ":" + sec + "," + ms)
         == Success(Seconds(ParseInt(h), ParseInt(m), ParseInt(sec), ParseInt(ms)))
  {
    var s := h + ":" + m + ":" + sec + "," + ms;
    SplitTimeFields(h, m, sec, ms);
    var parts := Split(s, ":");
    assert parts[0] == h && parts[1] == m && parts[2] == sec + "," + ms;
    var secondsParts := Split(parts[2], ",");
    assert secondsParts[0] == sec && secondsParts[1] == ms;
  }

  /** The fields of the documented example, read with `parseInt`. */
  lemma ExampleFields()
    ensures ParseInt("00") == Finite(0.0)
    ensures ParseInt("01") == Finite(1.0)
    ensures ParseInt("500") == Finite(500.0)
  {
    ParseIntOfDigits("00");
    ParseIntOfDigits("01");
    ParseIntOfDigits("500");
    ExampleDigits();
  }

  /** The decimal values of the example's digit fields. */
  lemma ExampleDigits()
    ensures DigitsValue("00") == 0
    ensures DigitsValue("01") == 1
    ensures DigitsValue("500") == 500
  {
    assert "00"[..1] == "0";
    assert "01"[..1] == "0";
    assert "500"[..2] == "50";
    assert "50"[..1] == "5";
  }

  /** The documented example: `00:00:01,500` is 1.5 seconds. */
  lemma ParseTimeExample()
    ensures ParseTime("00:00:01,500") == Success(Finite(1.5))
  {
    assert "00:00:01,500" == "00" + ":" + "00" + ":" + "01" + "," + "500";
    ParseTimeOfFields("00", "00", "01", "500");
    ExampleFields();
  }

  /**
   * One block: at least three lines, a second line containing `-->`, and text
   * (lines three onward) that is not blank make a cue; anything else is skipped.
   * The start half is parsed before the end half is looked at, so a time line
   * without `" --> "` throws from the start half when that half is malformed.
   */
  function ParseBlock(block: string): (r: Result<Option<Cue>, ParseError>)
    ensures var lines := Split(block, "\n");
      (|lines| < 3 || !Includes(lines[1], "-->")) ==> r == Success(None)
    ensures r.Success? && r.value.Some? ==>
      var lines := Split(block, "\n");
      var cue := r.value.value;
      && |lines| >= 3 && Includes(lines[1], "-->")
      && cue.text == Join(lines[2..], "\n")
      && Trim(cue.text) != []
      && cue.duration == Sub(cue.end, cue.start)
      && var halves := Split(lines[1], " --> ");
         && |halves| >= 2
         && ParseTime(Trim(halves[0])) == Success(cue.start)
         && ParseTime(Trim(halves[1])) == Success(cue.end)
    ensures r.Failure? <==>
      var lines := Split(block, "\n");
      && |lines| >= 3 && Includes(lines[1], "-->")
      && var halves := Split(lines[1], " --> ");
         (|halves| < 2 || ParseTime(Trim(halves[0])).Failure? || ParseTime(Trim(halves[1])).Failure?)
    ensures var lines := Split(block, "\n");
      |lines| >= 3 && Includes(lines[1], "-->") ==>
      var halves := Split(lines[1], " --> ");
      |halves| >= 2 && ParseTime(Trim(halves[0])).Success? && ParseTime(Trim(halves[1])).Success? ==>
      var start := ParseTime(Trim(halves[0])).value;
      var end := ParseTime(Trim(halves[1])).value;
      var text := Join(lines[2..], "\n");
      && (Trim(text) != [] ==> r == Success(Some(Cue(start, end, Sub(end, start), text))))
      && (Trim(text) == [] ==> r == Success(None))
  {
    var lines := Split(block, "\n");
    if |lines| < 3 then Success(None)
    else
      var timeLine := lines[1];
      if !Includes(timeLine, "-->") then Success(None)
      else
        var halves := Split(timeLine, " --> ");
        var start :- ParseTime(Trim(halves[0]));
        if |halves| < 2 then Failure(TypeError("endStr is undefined"))
        else
          var end :- ParseTime(Trim(halves[1]));
          var text := Join(lines[2..], "\n");
          if Trim(text) == [] then Success(None)
          else Success(Some(Cue(start, end, Sub(end, start), text)))
  }

  /** The per-block outcomes of the `forEach`, in block order. */
  function Outcomes(blocks: seq<string>): (r: seq<Result<Option<Cue>, ParseError>>)
    ensures |r| == |blocks|
    ensures forall i :: 0 <= i < |blocks| ==> r[i] == ParseBlock(blocks[i])
  {
    if blocks == [] then [] else [ParseBlock(blocks[0])] + Outcomes(blocks[1..])
  }

  /** The cue an outcome contributes to `results`: none, or exactly one. */
  function Pushed(outcome: Option<Cue>): seq<Cue>
  {
    if outcome.Some? then [outcome.value] else []
  }

  /**
   * `results` after the blocks whose outcomes are given, left to right: each
   * success pushes its cue, and the first block that throws ends the parse.
   */
  function Collect(outcomes: seq<Result<Option<Cue>, ParseError>>): (r: Result<seq<Cue>, ParseError>)
    ensures r.Failure? ==> exists i :: 0 <= i < |outcomes| && outcomes[i] == Failure(r.error)
  {
    if outcomes == [] then Success([])
    else
      var prev := Collect(outcomes[..|outcomes| - 1]);
      var last := outcomes[|outcomes| - 1];
      if prev.Failure? then prev
      else if last.Failure? then Failure(last.error)
      else Success(prev.value + Pushed(last.value))
  }

  /** One more block: its cue, if any, is pushed after the earlier ones. */
  lemma CollectStep(outcomes: seq<Result<Option<Cue>, ParseError>>, i: nat)
    requires i < |outcomes|
    ensures Collect(outcomes[..i + 1]) ==
      if Collect(outcomes[..i]).Failure? then Collect(outcomes[..i])
      else if outcomes[i].Failure? then Failure(outcomes[i].error)
      else Success(Collect(outcomes[..i]).value + Pushed(outcomes[i].value))
  {
    assert outcomes[..i + 1][..i] == outcomes[..i];
  }

  /** The parse succeeds exactly when no block throws. */
  lemma {:induction false} CollectSucceeds(outcomes: seq<Result<Option<Cue>, ParseError>>)
    ensures Collect(outcomes).Success? <==> forall i :: 0 <= i < |outcomes| ==> outcomes[i].Success?
  {
    if outcomes != [] {
      var init := outcomes[..|outcomes| - 1];
      CollectSucceeds(init);
      assert forall i :: 0 <= i < |init| ==> init[i] == outcomes[i];
    }
  }

  /** A failed parse reports what the first throwing block threw. */
  lemma {:induction false} CollectFailure(outcomes: seq<Result<Option<Cue>, ParseError>>, k: nat)
    requires k < |outcomes| && outcomes[k].Failure?
    requires forall i :: 0 <= i < k ==> outcomes[i].Success?
    ensures Collect(outcomes) == Failure(outcomes[k].error)
  {
    var init := outcomes[..|outcomes| - 1];
    if k == |outcomes| - 1 {
      CollectSucceeds(init);
    } else {
      CollectFailure(init, k);
    }
  }

  /**
   * Cues come out in block order: the cues of `a + b` are those of `a`
   * followed by those of `b`, and the first failure wins.
   */
  lemma {:induction false} CollectAppend(a: seq<Result<Option<Cue>, ParseError>>, b: seq<Result<Option<Cue>, ParseError>>)
    ensures Collect(a + b) ==
      if Collect(a).Failure? then Collect(a)
      else if Collect(b).Failure? then Collect(b)
      else Success(Collect(a).value + Collect(b).value)
    decreases |b|
  {
    if b == [] {
      assert a + b == a;
      if Collect(a).Success? {
        assert Collect(a).value + Collect(b).value == Collect(a).value;
      }
    } else {
      var init := b[..|b| - 1];
      var last := b[|b| - 1];
      var ab := a + b;
      assert ab[..|ab| - 1] == a + init;
      assert ab[|ab| - 1] == last;
      CollectAppend(a, init);
      if Collect(a).Success? && Collect(init).Success? && last.Success? {
        calc {
          Collect(ab).value;
          Collect(a + init).value + Pushed(last.value);
          Collect(a).value + Collect(init).value + Pushed(last.value);
          Collect(a).value + Collect(b).value;
        }
      }
    }
  }

  /** Once a prefix of the blocks has thrown, the rest of the blocks change nothing. */
  lemma {:induction false} CollectFailedPrefix(outcomes: seq<Result<Option<Cue>, ParseError>>, n: nat)
    requires n <= |outcomes| && Collect(outcomes[..n]).Failure?
    ensures Collect(outcomes) == Collect(outcomes[..n])
    decreases |outcomes| - n
  {
    if n < |outcomes| {
      CollectStep(outcomes, n);
      CollectFailedPrefix(outcomes, n + 1);
    } else {
      assert outcomes[..n] == outcomes;
    }
  }

  /** Each block contributes at most one cue. */
  lemma {:induction false} CollectAtMostOnePerBlock(outcomes: seq<Result<Option<Cue>, ParseError>>)
    ensures Collect(outcomes).Success? ==> |Collect(outcomes).value| <= |outcomes|
  {
    if outcomes != [] {
      CollectAtMostOnePerBlock(outcomes[..|outcomes| - 1]);
    }
  }

  /** Every cue is the cue of one of the blocks. */
  lemma {:induction false} CollectCuesFromBlocks(outcomes: seq<Result<Option<Cue>, ParseError>>)
    ensures Collect(outcomes).Success? ==>
      forall c :: c in Collect(outcomes).value ==> Success(Some(c)) in outcomes
  {
    if outcomes != [] {
      var init := outcomes[..|outcomes| - 1];
      CollectCuesFromBlocks(init);
      assert forall o :: o in init ==> o in outcomes;
    }
  }

  /** `\r\n`, then every remaining `\r`, become `\n`. */
  function NormalizeNewlines(s: string): (r: string)
    ensures '\r' !in r
    ensures '\r' !in s ==> r == s
  {
    var unixed := ReplaceAll(s, "\r\n", "\n");
    SplitPiecesAvoidChar(unixed, '\r');
    JoinAvoids(Split(unixed, "\r"), "\n", '\r');
    if '\r' !in s then
      SplitWithoutSeparator(s, "\r\n");
      SplitWithoutSeparator(s, "\r");
      ReplaceAll(unixed, "\r", "\n")
    else
      ReplaceAll(unixed, "\r", "\n")
  }

  /**
   * The normalisation read one position at a time: `\r\n` becomes `\n`, a lone
   * `\r` becomes `\n`, and any other character is kept.
   */
  lemma NormalizeNewlinesStep(s: string)
    ensures StartsWith(s, "\r\n") ==> NormalizeNewlines(s) == "\n" + NormalizeNewlines(s[2..])
    ensures |s| > 0 && s[0] == '\r' && !StartsWith(s, "\r\n") ==> NormalizeNewlines(s) == "\n" + NormalizeNewlines(s[1..])
    ensures |s| > 0 && s[0] != '\r' ==> NormalizeNewlines(s) == [s[0]] + NormalizeNewlines(s[1..])
  {
    if StartsWith(s, "\r\n") {
      ReplaceAllAtMatch(s, "\r\n", "\n");
      var rest := ReplaceAll(s[2..], "\r\n", "\n");
      ReplaceAllElsewhere("\n" + rest, "\r", "\n");
      assert ("\n" + rest)[1..] == rest;
    } else if |s| > 0 && s[0] == '\r' {
      ReplaceAllElsewhere(s, "\r\n", "\n");
      var rest := ReplaceAll(s[1..], "\r\n", "\n");
      ReplaceAllAtMatch("\r" + rest, "\r", "\n");
      assert ("\r" + rest)[1..] == rest;
    } else if |s| > 0 {
      ReplaceAllElsewhere(s, "\r\n", "\n");
      var rest := ReplaceAll(s[1..], "\r\n", "\n");
      ReplaceAllElsewhere([s[0]] + rest, "\r", "\n");
      assert ([s[0]] + rest)[1..] == rest;
    }
  }

  /** The blocks `parseSRT` walks over: the normalised text cut at blank lines. */
  function Blocks(content: string): (blocks: seq<string>)
    ensures |blocks| >= 1
    ensures Join(blocks, "\n\n") == NormalizeNewlines(content)
    ensures forall b :: b in blocks ==> !Includes(b, "\n\n")
    ensures forall i :: 0 <= i < |blocks| - 1 ==> !Includes(blocks[i] + "\n", "\n\n")
  {
    var normalized := NormalizeNewlines(content);
    JoinSplit(normalized, "\n\n");
    SplitPiecesAvoid(normalized, "\n\n");
    var parts := Split(normalized, "\n\n");
    SplitLeftmost(normalized, "\n\n");
    assert "\n\n"[..1] == "\n";
    forall i | 0 <= i < |parts| - 1
      ensures !Includes(parts[i] + "\n", "\n\n")
    {
      LeftmostCutsAt(parts, "\n\n", i);
    }
    parts
  }

  /** What `parseSRT` returns (or throws) for `content`. */
  function Srt(content: string): (r: Result<seq<Cue>, ParseError>)
    ensures r.Success? <==> forall b :: b in Blocks(content) ==> ParseBlock(b).Success?
  {
    var blocks := Blocks(content);
    CollectSucceeds(Outcomes(blocks));
    Collect(Outcomes(blocks))
  }

  /**
   * The `forEach` of `parseSRT`: walk the blocks in order, pushing each
   * block's cue onto `results`; a block that throws aborts the parse.
   */
  method ParseBlocks(blocks: seq<string>) returns (r: Result<seq<Cue>, ParseError>)
    ensures r == Collect(Outcomes(blocks))
  {
    ghost var outcomes := Outcomes(blocks);
    var results: seq<Cue> := [];
    var i := 0;
    while i < |blocks|
      invariant 0 <= i <= |blocks|
      invariant Collect(outcomes[..i]) == Success(results)
    {
      var outcome := ParseBlock(blocks[i]);
      assert outcome == outcomes[i];
      CollectStep(outcomes, i);
      if outcome.Failure? {
        CollectFailedPrefix(outcomes, i + 1);
        return Failure(outcome.error);
      }
      if outcome.value.Some? {
        results := results + [outcome.value.value];
      } else {
        assert results + Pushed(outcome.value) == results;
      }
      i := i + 1;
    }
    assert outcomes[..i] == outcomes;
    return Success(results);
  }

  /** `parseSRT`: normalise line ends, cut into blocks at blank lines, parse the blocks. */
  method ParseSrt(content: string) returns (r: Result<seq<Cue>, ParseError>)
    ensures r == Srt(content)
  {
    r := ParseBlocks(Blocks(content));
  }

  /**
   * Every cue of a parse has `duration == end - start` and text that is not
   * blank, comes from one of the blocks, and there is at most one per block.
   */
  lemma SrtCues(content: string)
    ensures Srt(content).Success? ==> |Srt(content).value| <= |Blocks(content)|
    ensures Srt(content).Success? ==> forall c :: c in Srt(content).value ==>
      && c.duration == Sub(c.end, c.start)
      && Trim(c.text) != []
      && exists b :: b in Blocks(content) && ParseBlock(b) == Success(Some(c))
  {
    var blocks := Blocks(content);
    var outcomes := Outcomes(blocks);
    CollectAtMostOnePerBlock(outcomes);
    CollectCuesFromBlocks(outcomes);
    if Srt(content).Success? {
      forall c | c in Srt(content).value
        ensures exists b :: b in blocks && ParseBlock(b) == Success(Some(c))
      {
        var i :| 0 <= i < |outcomes| && outcomes[i] == Success(Some(c));
        assert blocks[i] in blocks;
      }
    }
  }
}
