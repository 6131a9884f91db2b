/** The display boost of power-8974.c over every run: its lock, its flags and the release of the initial lock. */
module BoostRuns {
  import opened PerfLocks
  import opened PowerHal
  import opened PowerRuns

  /** A call in which the boost code runs at all. */
  predicate Boosts(p: Power, a: Answers) {
    p.boost && a.first.Some?
  }

  /** What one display call does to the boost lock, to its two flags and to the initial lock. */
  lemma BoostStep(lib: Library, p: Power, on: bool, a: Answers)
    requires ValidAnswers(a) && |p.slack| == SLACK_NODES
    ensures var q, held := AfterInteractive(lib, p, on, a), Held(p, 0x0D00);
            && Held(q, 0x0D00) ==
               (if Boosts(p, a) && on && p.hint2Sent then held + Bit(Granted(lib, a))
                else if Boosts(p, a) && !on && !p.hint2Sent && lib.loaded && lib.release then Less(held)
                else held)
            && q.boost == p.boost
            && q.hint2Sent == (if Boosts(p, a) then !on else p.hint2Sent)
            && q.firstOff == (p.firstOff || (Boosts(p, a) && !on))
            && q.initialReleases ==
               p.initialReleases + Bit(Boosts(p, a) && !on && !p.firstOff && lib.loaded && lib.release)
  {
    hide OfId;
    hide Undo;
    hide Perform;
    BoostPart(lib, p, on, a);
    OverrideAfterBoost(lib, p, on, a);
    OverrideKeepsSlack(lib, p, on, a);
    var p1 := Override(lib, p, on, a).0;
    CommonSparesBoost(lib, p1, on, a);
    hide Override;
    hide Common;
    hide Boost;
  }

  lemma BoostPart(lib: Library, p: Power, on: bool, a: Answers)
    requires ValidAnswers(a)
    ensures var q, held := Boost(lib, p, on, a), Held(p, 0x0D00);
            && Held(q, 0x0D00) ==
               (if p.boost && on && p.hint2Sent then held + Bit(Granted(lib, a))
                else if p.boost && !on && !p.hint2Sent && lib.loaded && lib.release then Less(held)
                else held)
            && q.boost == p.boost
            && q.hint2Sent == (if p.boost then !on else p.hint2Sent)
            && q.firstOff == (p.firstOff || (p.boost && !on))
            && q.initialReleases == p.initialReleases + Bit(p.boost && !on && !p.firstOff && lib.loaded && lib.release)
  {
    hide OfId;
    hide Undo;
    hide Perform;
    AcquireHolds(lib, p, DISPLAY_ID_2, a, DISPLAY_ID_2);
    var p1 := if p.firstOff then p
              else p.(firstOff := true,
                      initialReleases := p.initialReleases + if lib.loaded && lib.release then 1 else 0);
    ReleaseHolds(lib, p1, DISPLAY_ID_2, DISPLAY_ID_2);
  }

  /** The display lock that the override moves is another one. */
  lemma OverrideAfterBoost(lib: Library, p: Power, on: bool, a: Answers)
    requires ValidAnswers(a)
    ensures var q, b := Override(lib, p, on, a).0, if a.first.Some? then Boost(lib, p, on, a) else p;
            && Held(q, 0x0D00) == Held(b, 0x0D00) && q.boost == b.boost && q.hint2Sent == b.hint2Sent
            && q.firstOff == b.firstOff && q.initialReleases == b.initialReleases
  {
    hide OfId;
    hide Undo;
    hide Perform;
    hide Boost;
    var b := Boost(lib, p, on, a);
    AcquireHolds(lib, b, DISPLAY_ID, a, DISPLAY_ID_2);
    ReleaseHolds(lib, b, DISPLAY_ID, DISPLAY_ID_2);
  }

  lemma CommonSparesBoost(lib: Library, p: Power, on: bool, a: Answers)
    requires ValidAnswers(a) && |p.slack| == SLACK_NODES
    ensures var q := Common(lib, p, on, a);
            && Held(q, 0x0D00) == Held(p, 0x0D00) && q.boost == p.boost && q.hint2Sent == p.hint2Sent
            && q.firstOff == p.firstOff && q.initialReleases == p.initialReleases
  {
    hide OfId;
    hide Undo;
    hide Perform;
    hide ScaleAll;
    hide RestoreAll;
    AcquireHolds(lib, p, DISPLAY_ID, a, DISPLAY_ID_2);
    ReleaseHolds(lib, p, DISPLAY_ID, DISPLAY_ID_2);
  }

  lemma VideoSparesBoost(lib: Library, p: Power, e: Event)
    requires ValidEvent(e) && e.Video? && Foreign(e) && |p.slack| == SLACK_NODES
    ensures var q := Next(lib, p, e);
            && Held(q, 0x0D00) == Held(p, 0x0D00) && q.boost == p.boost && q.hint2Sent == p.hint2Sent
            && q.firstOff == p.firstOff && q.initialReleases == p.initialReleases
  {
    hide OfId;
    hide VideoMeta;
    hide Undo;
    hide Perform;
    if e.metadata.Some? {
      var id := VideoMeta(e.decode, e.metadata.value).hintId;
      AcquireHolds(lib, p, id, e.a, DISPLAY_ID_2);
      ReleaseHolds(lib, p, id, DISPLAY_ID_2);
    }
  }

  // ----- whole runs

  /** A display event whose first reading succeeds. */
  predicate Read(e: Event) {
    e.Display? && e.a.first.Some?
  }

  /** Whether the last such event switched the display off, and whether any did. */
  function ReadOff(es: seq<Event>): bool {
    if es == [] then false
    else if Read(es[|es| - 1]) then !es[|es| - 1].on
    else ReadOff(es[..|es| - 1])
  }

  predicate EverReadOff(es: seq<Event>) {
    exists i :: 0 <= i < |es| && Read(es[i]) && !es[i].on
  }

  /** At every point a boost lock is held exactly while the display is on again after having been off. */
  predicate BoostFollows(lib: Library, p: Power, es: seq<Event>)
    requires ValidEvents(es) && |p.slack| == SLACK_NODES
  {
    && Held(StateAfter(lib, p, es), 0x0D00) == Bit(p.boost && EverReadOff(es) && !ReadOff(es))
    && (es != [] ==> BoostFollows(lib, p, es[..|es| - 1]))
  }

  /** Every switch-on after an off gets the lock, and every later switch-off can release it. */
  predicate BoostCounts(lib: Library, es: seq<Event>) {
    es != [] ==>
      var front, e := es[..|es| - 1], es[|es| - 1];
      && BoostCounts(lib, front)
      && (Read(e) && e.on && ReadOff(front) ==> Granted(lib, e.a))
      && (Read(e) && !e.on && EverReadOff(front) && !ReadOff(front) ==> lib.loaded && lib.release)
  }

  lemma EverReadOffSnoc(es: seq<Event>)
    requires es != []
    ensures EverReadOff(es) <==> EverReadOff(es[..|es| - 1]) || (Read(es[|es| - 1]) && !es[|es| - 1].on)
  {
    var front := es[..|es| - 1];
    if EverReadOff(front) {
      var i :| 0 <= i < |front| && Read(front[i]) && !front[i].on;
      assert es[i] == front[i];
    }
    if EverReadOff(es) {
      var i :| 0 <= i < |es| && Read(es[i]) && !es[i].on;
      assert i < |front| ==> front[i] == es[i];
    }
  }

  lemma {:induction false} ReadOffMeansEver(es: seq<Event>)
    ensures ReadOff(es) ==> EverReadOff(es)
  {
    if es != [] {
      ReadOffMeansEver(es[..|es| - 1]);
      EverReadOffSnoc(es);
    }
  }

  /** Flags and initial lock after any run, from the events alone; the initial lock goes exactly with the first off. */
  lemma {:induction false} BoostOfRun(lib: Library, boost: bool, nodes: seq<int>, es: seq<Event>)
    requires |nodes| == SLACK_NODES && ValidEvents(es) && AllForeign(es)
    ensures var p := StateAfter(lib, Initial(boost, nodes), es);
            && p.boost == boost && p.hint2Sent == (boost && ReadOff(es)) && p.firstOff == (boost && EverReadOff(es))
            && p.initialReleases == Bit(boost && EverReadOff(es) && lib.loaded && lib.release)
  {
    if es != [] {
      var front, e := es[..|es| - 1], es[|es| - 1];
      BoostOfRun(lib, boost, nodes, front);
      EverReadOffSnoc(es);
      var p := StateAfter(lib, Initial(boost, nodes), front);
      hide Held;
      hide AfterInteractive;
      hide EverReadOff;
      match e
      case Display(on, a) => BoostStep(lib, p, on, a);
      case Video(_, _, _) => VideoSparesBoost(lib, p, e);
    }
  }

  /** The boost lock follows the display through a run exactly when every switch counts. */
  lemma {:induction false} BoostFollowsDisplay(lib: Library, nodes: seq<int>, es: seq<Event>)
    requires |nodes| == SLACK_NODES && ValidEvents(es) && AllForeign(es)
    ensures BoostFollows(lib, Initial(true, nodes), es) <==> BoostCounts(lib, es)
  {
    hide EverReadOff;
    hide Held;
    hide AfterInteractive;
    hide VideoHint;
    if es == [] {
      NothingBoosted(nodes);
    } else {
      var front, e := es[..|es| - 1], es[|es| - 1];
      BoostFollowsDisplay(lib, nodes, front);
      BoostOfRun(lib, true, nodes, front);
      EverReadOffSnoc(es);
      ReadOffMeansEver(front);
      var p := StateAfter(lib, Initial(true, nodes), front);
      hide Initial;
      match e
      case Display(on, a) => BoostStep(lib, p, on, a);
      case Video(_, _, _) => VideoSparesBoost(lib, p, e);
    }
  }

  lemma NothingBoosted(nodes: seq<int>)
    requires |nodes| == SLACK_NODES
    ensures Held(Initial(true, nodes), 0x0D00) == 0 && !EverReadOff([])
  {
  }
}
