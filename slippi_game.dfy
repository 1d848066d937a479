/**
 * SlippiGame: a resumable session over one replay file. Every Process call reopens
 * the file, recomputes its layout, and walks the event stream from where the last
 * successful call left off, handing each decoded event to the session's parser.
 * Once the parser holds a GameEnd, Process does nothing.
 *
 * The file is whatever bytes it holds at the time of the call (a replay being
 * recorded grows between calls), so each call takes them as a parameter.
 */
module SlippiGame {
  import opened Wrappers
  import opened Bits
  import opened Types
  import SlpParser
  import opened SlpReader

  class SlippiGame {
    const parser: SlpParser.SlpParser
    /** Where the next Process call resumes; null before the first successful one. */
    var readPosition: Option<int32>
    /** The Shift-JIS decoder used for name tags. */
    const decode: seq<byte> -> string

    constructor(firstFrame: int32, decode: seq<byte> -> string)
      requires INT32_MIN < firstFrame
      ensures fresh(parser) && parser.Valid() && parser.firstFrame == firstFrame
      ensures parser.log == [] && parser.settings == None && parser.gameEnd == None && parser.frames == map[]
      ensures readPosition == None && this.decode == decode
    {
      parser := new SlpParser.SlpParser(firstFrame);
      readPosition := None;
      this.decode := decode;
    }

    /**
     * The body of Process once the file is open: walks its events from the stored
     * position (or the stream's start) with the callback of ProcessCallback, and
     * stores the position the walk returns. `events` are the events handed to the
     * callback, a prefix of the walk's, whose non-null payloads the parser is handed
     * in order; `replies` are the callback's answers, "go on" to all but the last;
     * `stopped` tells that the callback asked to stop (settings-only mode), in which
     * case the stored position is the start of the last of them. An exception from
     * the parser propagates and leaves the stored position as it was.
     */
    method Resume(f: SlpFile, settingsOnly: bool) returns (status: Status, ghost events: seq<Delivered>, ghost stopped: bool, ghost replies: seq<bool>)
      modifies this, parser
      requires 0 <= f.rawDataPosition
      requires parser.Valid()
      ensures parser.Valid()
      ensures var w := Walk(f.bytes, f.messageSizes, StopOf(f),
                            FreshScan(f.messageSizes, StartOf(old(readPosition), f.rawDataPosition)));
        && events <= w.events
        && (status == Ok && !stopped ==> events == w.events && readPosition.Some? && readPosition.value as int == w.end)
        && (status == Ok && stopped ==> events != [] && readPosition.Some? && readPosition.value as int == events[|events| - 1].pos)
        && (status != Ok ==> events != [] && !stopped && readPosition == old(readPosition))
      ensures stopped ==> settingsOnly && parser.GetSettings().Some?
      ensures parser.handled == old(parser.handled) + Payloads(events, decode)
      ensures status == Ok ==> replies == Replies(|events|, stopped)
      ensures status != Ok ==> replies == if events == [] then [] else Replies(|events| - 1, false)
    {
      var cb := new ProcessCallback(parser, settingsOnly, decode);
      var position;
      ghost var delivered;
      ghost var before := parser.handled;
      position, status, delivered, stopped := IterateEvents(f, cb, readPosition, decode);
      events, replies := cb.events, cb.replies;
      ghost var w := Walk(f.bytes, f.messageSizes, StopOf(f),
                          FreshScan(f.messageSizes, StartOf(readPosition, f.rawDataPosition)));
      assert events == w.events[..delivered];
      assert parser.handled == before + Payloads(events, decode);
      if status == Ok {
        readPosition := Some(position);
      }
    }

    /**
     * Process: nothing once the game has ended. Otherwise opens the file, where an
     * exception propagates and nothing changes, and resumes the walk over its events.
     */
    method Process(bytes: seq<byte>, settingsOnly: bool) returns (status: Status, ghost events: seq<Delivered>, ghost stopped: bool, ghost replies: seq<bool>)
      modifies this, parser
      requires |bytes| <= INT32_MAX
      requires parser.Valid()
      ensures parser.Valid()
      ensures old(parser.gameEnd).Some? ==>
        status == Ok && events == [] && !stopped && unchanged(this) && unchanged(parser)
      ensures old(parser.gameEnd).None? && Layout(bytes).Failure? ==>
        status == Threw(Layout(bytes).error) && events == [] && !stopped && unchanged(this) && unchanged(parser)
      ensures old(parser.gameEnd).None? && Layout(bytes).Success? ==>
        var f := Layout(bytes).value;
        var w := Walk(f.bytes, f.messageSizes, StopOf(f),
                      FreshScan(f.messageSizes, StartOf(old(readPosition), f.rawDataPosition)));
        && events <= w.events
        && (status == Ok && !stopped ==> events == w.events && readPosition.Some? && readPosition.value as int == w.end)
        && (status == Ok && stopped ==> events != [] && readPosition.Some? && readPosition.value as int == events[|events| - 1].pos)
        && (status != Ok ==> events != [] && !stopped && readPosition == old(readPosition))
      ensures stopped ==> settingsOnly && parser.GetSettings().Some?
      ensures parser.handled == old(parser.handled) + Payloads(events, decode)
      ensures status == Ok ==> replies == Replies(|events|, stopped)
      ensures status != Ok ==> replies == if events == [] then [] else Replies(|events| - 1, false)
    {
      ghost var before := parser.handled;
      assert before + Payloads([], decode) == before && Replies(0, false) == [];
      if parser.GetGameEnd().Some? {
        return Ok, [], false, [];
      }
      var slpFile := OpenSlpFile(bytes);
      if slpFile.Failure? {
        return Threw(slpFile.error), [], false, [];
      }
      ghost var f := Layout(bytes).value;
      assert slpFile.value == f && 0 <= f.rawDataPosition;
      status, events, stopped, replies := Resume(slpFile.value, settingsOnly);
      assert parser.handled == before + Payloads(events, decode);
    }

    /**
     * GetSettings: a settings-only Process, then the parser's settings (null while
     * incomplete). `events`, `stopped` and `replies` are those of the Process call:
     * the parser is handed the non-null payloads of `events`; the callback answers
     * "go on" to each event after which the settings are still incomplete, so the
     * walk stops on the first event after which they are complete, and the stored
     * position is then the start of that event.
     */
    method GetSettings(bytes: seq<byte>) returns (r: Option<GameStartType>, status: Status,
                                                  ghost events: seq<Delivered>, ghost stopped: bool, ghost replies: seq<bool>)
      modifies this, parser
      requires |bytes| <= INT32_MAX
      requires parser.Valid()
      ensures parser.Valid()
      ensures r == parser.GetSettings()
      ensures r.Some? ==> parser.settingsComplete && SlpParser.SettingsCount(parser.log) == 1
      ensures stopped ==> r.Some?
      ensures parser.handled == old(parser.handled) + Payloads(events, decode)
      ensures status == Ok ==> replies == Replies(|events|, stopped)
      ensures status != Ok ==> replies == if events == [] then [] else Replies(|events| - 1, false)
      ensures old(parser.gameEnd).Some? ==>
        status == Ok && events == [] && !stopped && unchanged(this) && unchanged(parser)
      ensures old(parser.gameEnd).None? && Layout(bytes).Failure? ==>
        status == Threw(Layout(bytes).error) && events == [] && !stopped && unchanged(this) && unchanged(parser)
      ensures old(parser.gameEnd).None? && Layout(bytes).Success? ==>
        var f := Layout(bytes).value;
        var w := Walk(f.bytes, f.messageSizes, StopOf(f),
                      FreshScan(f.messageSizes, StartOf(old(readPosition), f.rawDataPosition)));
        && events <= w.events
        && (status == Ok && !stopped ==> events == w.events && readPosition.Some? && readPosition.value as int == w.end)
        && (status == Ok && stopped ==> events != [] && readPosition.Some? && readPosition.value as int == events[|events| - 1].pos)
        && (status != Ok ==> events != [] && !stopped && readPosition == old(readPosition))
    {
      status, events, stopped, replies := Process(bytes, true);
      r := parser.GetSettings();
    }
  }

  /** Event positions lie before the stop, so they fit in an int. */
  lemma EventPositions(f: SlpFile, start: int32, k: nat)
    requires 0 <= start
    requires k < |Walk(f.bytes, f.messageSizes, StopOf(f), FreshScan(f.messageSizes, start as nat)).events|
    ensures var e := Walk(f.bytes, f.messageSizes, StopOf(f), FreshScan(f.messageSizes, start as nat)).events[k];
      start <= e.pos < StopOf(f)
  {
    var s := FreshScan(f.messageSizes, start as nat);
    var w := Walk(f.bytes, f.messageSizes, StopOf(f) as int, s);
    WalkEvents(f.bytes, f.messageSizes, StopOf(f) as int, s);
    assert w.events[k] in w.events;
  }

  /**
   * A settings-only stop does not move past the event it stopped on: a Process
   * resumed at the stored position on the same bytes delivers that event again,
   * then the rest of the walk, and ends where the walk ends (provided the whole
   * event stream lies inside the file).
   */
  lemma ResumeRedelivers(f: SlpFile, startPos: Option<int32>, k: nat)
    requires 0 <= f.rawDataPosition && StopOf(f) as int <= |f.bytes|
    requires k < |Walk(f.bytes, f.messageSizes, StopOf(f),
                       FreshScan(f.messageSizes, StartOf(startPos, f.rawDataPosition))).events|
    ensures var w := Walk(f.bytes, f.messageSizes, StopOf(f),
                          FreshScan(f.messageSizes, StartOf(startPos, f.rawDataPosition)));
      && w.events[k].pos <= INT32_MAX
      && Walk(f.bytes, f.messageSizes, StopOf(f),
              FreshScan(f.messageSizes, StartOf(Some(w.events[k].pos as int32), f.rawDataPosition)))
         == Walked(w.events[k..], w.end)
  {
    var start := StartOf(startPos, f.rawDataPosition);
    var s := FreshScan(f.messageSizes, start as nat);
    var w := Walk(f.bytes, f.messageSizes, StopOf(f), s);
    EventPositions(f, start, k);
    var p := w.events[k].pos as int32;
    assert StartOf(Some(p), f.rawDataPosition) == p;
    WalkResume(f.bytes, f.messageSizes, StopOf(f), s, k, FreshScan(f.messageSizes, p as nat));
  }

  /**
   * A Process that walked to the end without being asked to stop leaves nothing
   * behind: resumed at the stored position on the same bytes, the walk delivers no
   * event and stays where it is (provided the whole event stream lies inside the file).
   */
  lemma ResumeAtEnd(f: SlpFile, startPos: Option<int32>)
    requires 0 <= f.rawDataPosition && StopOf(f) as int <= |f.bytes|
    ensures var w := Walk(f.bytes, f.messageSizes, StopOf(f),
                          FreshScan(f.messageSizes, StartOf(startPos, f.rawDataPosition)));
      && w.end <= INT32_MAX
      && Walk(f.bytes, f.messageSizes, StopOf(f),
              FreshScan(f.messageSizes, StartOf(Some(w.end as int32), f.rawDataPosition)))
         == Walked([], w.end)
  {
    var start := StartOf(startPos, f.rawDataPosition);
    var s := FreshScan(f.messageSizes, start as nat);
    var stop := StopOf(f) as int;
    var w := Walk(f.bytes, f.messageSizes, stop, s);
    assert StartOf(Some(w.end as int32), f.rawDataPosition) == w.end as int32;
    var r := FreshScan(f.messageSizes, w.end);
    WalkLeaves(f.bytes, f.messageSizes, stop, s);
    NextReads(f.bytes, f.messageSizes, stop, r);
    WalkStep(f.bytes, f.messageSizes, stop, r);
  }
}
