/** The locks of video encode and decode hints over every run of display and video events. */
module VideoRuns {
  import opened Text
  import opened PerfLocks
  import opened Metadata
  import opened PowerHal
  import opened PowerRuns

  /**
   * A video hint that got its lock gives it back when it stops exactly when the stop finds the interactive
   * governor, or is an encode stop and finds ondemand: a decode stop does nothing under ondemand, and no stop does
   * anything under another governor or without a reading.
   */
  lemma VideoStopReleases(lib: Library, p: Power, decode: bool, start: string, stop: string, a: Answers, b: Answers)
    requires lib == Library(true, true, true) && ValidAnswers(a) && ValidAnswers(b)
    requires VideoMeta(decode, start).state == 1 && VideoMeta(decode, stop).state == 0
    requires VideoMeta(decode, start).hintId == VideoMeta(decode, stop).hintId && IsInt(VideoMeta(decode, start).hintId)
    requires a.first == Some(Ondemand) || a.first == Some(Interactive)
    requires a.handle != -1 && a.hintOk && a.nodeOk
    ensures var q := VideoHint(lib, VideoHint(lib, p, decode, Some(start), a), decode, Some(stop), b);
            && (q.locks.active == p.locks.active <==>
                  b.first == Some(Interactive) || (!decode && b.first == Some(Ondemand)))
            && (q.locks.active == p.locks.active ==> q.locks.released == p.locks.released + [ULong(a.handle)])
  {
    hide VideoMeta;
    var h := Hint(ULong(VideoMeta(decode, start).hintId), ULong(a.handle));
    assert Without([h] + p.locks.active, 0) == p.locks.active;
    assert |[h] + p.locks.active| > |p.locks.active|;
  }

  /**
   * Metadata without `hint_id` acts on 0x0B00 for decoding and on 0x0A00 for encoding; metadata without `state`, or
   * with a state other than 0 and 1, changes nothing.
   */
  lemma HintDefaults(lib: Library, p: Power, decode: bool, metadata: string, a: Answers)
    requires ValidAnswers(a) && IsInt(VideoMeta(decode, metadata).hintId)
    ensures var segs := Tokens(metadata, {';'});
            && (LastValue(segs, "hint_id").None? ==>
                  VideoMeta(decode, metadata).hintId == if decode then 0x0B00 else 0x0A00)
            && (LastValue(segs, "hint_id").Some? ==>
                  VideoMeta(decode, metadata).hintId == Atoi(LastValue(segs, "hint_id").value))
            && (LastValue(segs, "state").None? || Atoi(LastValue(segs, "state").value) !in {0, 1} ==>
                  VideoHint(lib, p, decode, Some(metadata), a) == p)
  {
    hide Tokens;
    hide LastValue;
    hide Atoi;
    hide Fold;
    LastWins(VideoMetadata(if decode then VIDEO_DECODE_ID else VIDEO_ENCODE_ID, -1), Tokens(metadata, {';'}));
    hide Undo;
    hide Perform;
  }

  // ----- whole runs

  /** A hint that asks for the id to start, or to stop. */
  predicate Starts(e: Event, id: int) {
    e.Video? && e.metadata.Some? && VideoMeta(e.decode, e.metadata.value).hintId == id
    && VideoMeta(e.decode, e.metadata.value).state == 1
  }

  predicate Stops(e: Event, id: int) {
    e.Video? && e.metadata.Some? && VideoMeta(e.decode, e.metadata.value).hintId == id
    && VideoMeta(e.decode, e.metadata.value).state == 0
  }

  /** A start that gets a lock, and a stop that is acted upon. */
  predicate Gets(lib: Library, e: Event) {
    Known(e.a.first) && Granted(lib, e.a)
  }

  predicate GivesBack(lib: Library, e: Event)
    requires e.Video?
  {
    lib.loaded && lib.release && (e.a.first == Some(Interactive) || (!e.decode && e.a.first == Some(Ondemand)))
  }

  predicate VideoId(id: int) {
    IsInt(id) && id != DISPLAY_ID && id != DISPLAY_ID_2
  }

  /** The locks that the hints of one id leave, newest first. */
  function VideoLocks(lib: Library, es: seq<Event>, id: int): seq<Hint>
    requires IsInt(id) && ValidEvents(es)
  {
    if es == [] then []
    else
      var front, e := VideoLocks(lib, es[..|es| - 1], id), es[|es| - 1];
      if Starts(e, id) && Gets(lib, e) then [Hint(ULong(id), ULong(e.a.handle))] + front
      else if Stops(e, id) && GivesBack(lib, e) && front != [] then front[1..]
      else front
  }

  lemma AcquirePushes(lib: Library, p: Power, id: int, a: Answers, other: int)
    requires IsInt(id) && IsInt(other) && ValidAnswers(a)
    ensures OfId(Acquire(lib, p, id, a).locks.active, ULong(other)) ==
            (if id == other && Granted(lib, a) then [Hint(ULong(id), ULong(a.handle))] else [])
            + OfId(p.locks.active, ULong(other))
  {
    if id != other {
      ULongIsInjective(id, other);
    }
    var h := Hint(ULong(id), ULong(a.handle));
    assert ([h] + p.locks.active)[1..] == p.locks.active;
  }

  lemma ReleasePops(lib: Library, p: Power, id: int, other: int)
    requires IsInt(id) && IsInt(other)
    ensures var held := OfId(p.locks.active, ULong(other));
            OfId(Release(lib, p, id).locks.active, ULong(other)) ==
            if id == other && lib.loaded && lib.release && held != [] then held[1..] else held
  {
    if id != other {
      ULongIsInjective(id, other);
    }
    if lib.loaded && lib.release {
      UndoPops(lib, p.locks, id, ULong(other));
    }
  }

  lemma DisplaySparesVideo(lib: Library, p: Power, on: bool, a: Answers, id: int)
    requires ValidAnswers(a) && |p.slack| == SLACK_NODES && VideoId(id)
    ensures OfId(AfterInteractive(lib, p, on, a).locks.active, ULong(id)) == OfId(p.locks.active, ULong(id))
  {
    OverrideSparesVideo(lib, p, on, a, id);
    OverrideKeepsSlack(lib, p, on, a);
    var p1 := Override(lib, p, on, a).0;
    hide Override;
    CommonLocks(lib, p1, on, a);
    hide Common;
    AcquirePushes(lib, p1, DISPLAY_ID, a, id);
    ReleasePops(lib, p1, DISPLAY_ID, id);
    hide OfId;
    hide Undo;
    hide Perform;
  }

  lemma OverrideSparesVideo(lib: Library, p: Power, on: bool, a: Answers, id: int)
    requires ValidAnswers(a) && VideoId(id)
    ensures OfId(Override(lib, p, on, a).0.locks.active, ULong(id)) == OfId(p.locks.active, ULong(id))
  {
    BoostSparesVideo(lib, p, on, a, id);
    var b := Boost(lib, p, on, a);
    hide Boost;
    AcquirePushes(lib, b, DISPLAY_ID, a, id);
    ReleasePops(lib, b, DISPLAY_ID, id);
    hide OfId;
    hide Undo;
    hide Perform;
  }

  lemma BoostSparesVideo(lib: Library, p: Power, on: bool, a: Answers, id: int)
    requires ValidAnswers(a) && VideoId(id)
    ensures OfId(Boost(lib, p, on, a).locks.active, ULong(id)) == OfId(p.locks.active, ULong(id))
  {
    AcquirePushes(lib, p, DISPLAY_ID_2, a, id);
    var p1 := if p.firstOff then p
              else p.(firstOff := true,
                      initialReleases := p.initialReleases + if lib.loaded && lib.release then 1 else 0);
    ReleasePops(lib, p1, DISPLAY_ID_2, id);
    hide OfId;
    hide Undo;
    hide Perform;
  }

  lemma VideoMoves(lib: Library, p: Power, e: Event, id: int)
    requires ValidEvent(e) && e.Video? && |p.slack| == SLACK_NODES && IsInt(id)
    ensures var held := OfId(p.locks.active, ULong(id));
            OfId(Next(lib, p, e).locks.active, ULong(id)) ==
            if Starts(e, id) && Gets(lib, e) then [Hint(ULong(id), ULong(e.a.handle))] + held
            else if Stops(e, id) && GivesBack(lib, e) && held != [] then held[1..]
            else held
  {
    hide OfId;
    hide VideoMeta;
    hide Undo;
    hide Perform;
    if e.metadata.Some? {
      var other := VideoMeta(e.decode, e.metadata.value).hintId;
      AcquirePushes(lib, p, other, e.a, id);
      ReleasePops(lib, p, other, id);
    }
  }

  /** The locks held under a video id after any run are those that its own granted starts and effective stops leave. */
  lemma {:induction false} VideoLocksOfRun(lib: Library, boost: bool, nodes: seq<int>, es: seq<Event>, id: int)
    requires |nodes| == SLACK_NODES && ValidEvents(es) && VideoId(id)
    ensures OfId(StateAfter(lib, Initial(boost, nodes), es).locks.active, ULong(id)) == VideoLocks(lib, es, id)
  {
    if es != [] {
      var front, e := es[..|es| - 1], es[|es| - 1];
      VideoLocksOfRun(lib, boost, nodes, front, id);
      var p := StateAfter(lib, Initial(boost, nodes), front);
      match e
      case Display(on, a) => DisplaySparesVideo(lib, p, on, a, id);
      case Video(_, _, _) => VideoMoves(lib, p, e, id);
    }
  }

  /** How many starts of the id have not been stopped, going by the hints alone. */
  function Playing(es: seq<Event>, id: int): nat {
    if es == [] then 0
    else
      var front, e := Playing(es[..|es| - 1], id), es[|es| - 1];
      if Starts(e, id) then front + 1 else if Stops(e, id) then Less(front) else front
  }

  /** At every point of the run there is one lock for each start that has not been stopped. */
  predicate LocksFollowPlay(lib: Library, p: Power, es: seq<Event>, id: int)
    requires ValidEvents(es) && |p.slack| == SLACK_NODES && IsInt(id)
  {
    && Held(StateAfter(lib, p, es), id) == Playing(es, id)
    && (es != [] ==> LocksFollowPlay(lib, p, es[..|es| - 1], id))
  }

  /** Every start gets its lock, and every stop of something started is acted upon. */
  predicate HintsCount(lib: Library, es: seq<Event>, id: int) {
    es != [] ==>
      var front, e := es[..|es| - 1], es[|es| - 1];
      && HintsCount(lib, front, id)
      && (Starts(e, id) ==> Gets(lib, e))
      && (Stops(e, id) && Playing(front, id) > 0 ==> GivesBack(lib, e))
  }

  /** The locks of a video id follow its hints through a run exactly when every hint counts. */
  lemma {:induction false} LocksFollowHints(lib: Library, boost: bool, nodes: seq<int>, es: seq<Event>, id: int)
    requires |nodes| == SLACK_NODES && ValidEvents(es) && VideoId(id)
    ensures LocksFollowPlay(lib, Initial(boost, nodes), es, id) <==> HintsCount(lib, es, id)
  {
    if es != [] {
      LocksFollowHints(lib, boost, nodes, es[..|es| - 1], id);
      VideoLocksOfRun(lib, boost, nodes, es[..|es| - 1], id);
      VideoLocksOfRun(lib, boost, nodes, es, id);
      hide Starts;
      hide Stops;
      hide StateAfter;
      hide Initial;
    }
  }
}
