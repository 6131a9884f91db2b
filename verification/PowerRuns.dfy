/** What the power HAL keeps over every run of display and video events. */
module PowerRuns {
  import opened Text
  import opened PerfLocks
  import opened PowerHal

  datatype Event = Display(on: bool, a: Answers) | Video(decode: bool, metadata: Option<string>, a: Answers)

  predicate ValidEvent(e: Event) {
    ValidAnswers(e.a) && (e.Video? && e.metadata.Some? ==> IsInt(VideoMeta(e.decode, e.metadata.value).hintId))
  }

  predicate ValidEvents(es: seq<Event>) {
    forall i :: 0 <= i < |es| ==> ValidEvent(es[i])
  }

  function Next(lib: Library, p: Power, e: Event): (q: Power)
    requires ValidEvent(e) && |p.slack| == SLACK_NODES
    ensures |q.slack| == SLACK_NODES
  {
    match e
    case Display(on, a) => AfterInteractive(lib, p, on, a)
    case Video(decode, metadata, a) => VideoHint(lib, p, decode, metadata, a)
  }

  function StateAfter(lib: Library, p: Power, es: seq<Event>): (q: Power)
    requires ValidEvents(es) && |p.slack| == SLACK_NODES
    ensures |q.slack| == SLACK_NODES
  {
    if es == [] then p else Next(lib, StateAfter(lib, p, es[..|es| - 1]), es[|es| - 1])
  }

  // ----- display locks and their flags

  function Held(p: Power, id: int): nat
    requires IsInt(id)
  {
    |OfId(p.locks.active, ULong(id))|
  }

  function Bit(b: bool): nat {
    if b then 1 else 0
  }

  /** Display locks never outnumber the flags that say they were requested, and the initial lock goes once. */
  predicate FlagsCover(p: Power) {
    && Held(p, DISPLAY_ID) <= Bit(p.overrideSent) + Bit(p.sent)
    && Held(p, DISPLAY_ID_2) <= 1 - Bit(p.hint2Sent)
    && p.initialReleases <= Bit(p.firstOff)
  }

  /** Either both entry points were found, or nothing is ever acquired. */
  predicate CanRelease(lib: Library) {
    lib.loaded && lib.acquire ==> lib.release
  }

  /** A video hint that does not borrow the ids of the display. */
  predicate Foreign(e: Event) {
    e.Video? && e.metadata.Some? ==> VideoMeta(e.decode, e.metadata.value).hintId !in {DISPLAY_ID, DISPLAY_ID_2}
  }

  predicate AllForeign(es: seq<Event>) {
    forall i :: 0 <= i < |es| ==> Foreign(es[i])
  }

  /** The library gives a lock, and there is memory to track it. */
  predicate Granted(lib: Library, a: Answers) {
    lib.loaded && lib.acquire && a.handle != -1 && a.hintOk && a.nodeOk
  }

  lemma AcquireHolds(lib: Library, p: Power, id: int, a: Answers, other: int)
    requires IsInt(id) && IsInt(other) && ValidAnswers(a)
    ensures Held(Acquire(lib, p, id, a), other) == Held(p, other) + Bit(id == other && Granted(lib, a))
  {
    if id != other {
      ULongIsInjective(id, other);
    }
    var h := Hint(ULong(id), ULong(a.handle));
    assert ([h] + p.locks.active)[1..] == p.locks.active;
  }

  lemma ReleaseHolds(lib: Library, p: Power, id: int, other: int)
    requires IsInt(id) && IsInt(other)
    ensures var q := Release(lib, p, id);
            && (id != other || !lib.loaded || !lib.release ==> Held(q, other) == Held(p, other))
            && (id == other && lib.loaded && lib.release ==>
                  Held(q, other) == if Held(p, other) > 0 then Held(p, other) - 1 else 0)
  {
    if id != other {
      ULongIsInjective(id, other);
    }
    if lib.loaded && lib.release {
      UndoPops(lib, p.locks, id, ULong(other));
    }
  }

  /** With no way to acquire there is nothing to hold. */
  predicate NothingHeld(lib: Library, p: Power) {
    !lib.loaded || !lib.acquire ==> p.locks.active == []
  }

  lemma BoostCovers(lib: Library, p: Power, on: bool, a: Answers)
    requires ValidAnswers(a) && CanRelease(lib) && FlagsCover(p) && NothingHeld(lib, p)
    ensures FlagsCover(Boost(lib, p, on, a)) && NothingHeld(lib, Boost(lib, p, on, a))
  {
    hide OfId;
    AcquireHolds(lib, p, DISPLAY_ID_2, a, DISPLAY_ID);
    AcquireHolds(lib, p, DISPLAY_ID_2, a, DISPLAY_ID_2);
    var p1 := if p.firstOff then p
              else p.(firstOff := true,
                      initialReleases := p.initialReleases + if lib.loaded && lib.release then 1 else 0);
    ReleaseHolds(lib, p1, DISPLAY_ID_2, DISPLAY_ID);
    ReleaseHolds(lib, p1, DISPLAY_ID_2, DISPLAY_ID_2);
    NothingToUndo(lib, p1, DISPLAY_ID_2);
  }

  lemma NothingToUndo(lib: Library, p: Power, id: int)
    requires IsInt(id)
    ensures p.locks.active == [] ==> Release(lib, p, id).locks.active == []
    ensures p.locks.active == [] ==> Held(p, DISPLAY_ID) == 0 && Held(p, DISPLAY_ID_2) == 0
  {
  }

  lemma OverrideCovers(lib: Library, p: Power, on: bool, a: Answers)
    requires ValidAnswers(a) && CanRelease(lib) && FlagsCover(p) && NothingHeld(lib, p)
    ensures FlagsCover(Override(lib, p, on, a).0) && NothingHeld(lib, Override(lib, p, on, a).0)
  {
    hide OfId;
    hide Boost;
    hide Undo;
    hide Perform;
    hide Release;
    hide Acquire;
    BoostCovers(lib, p, on, a);
    var p1 := Boost(lib, p, on, a);
    DisplayLockMoves(lib, p1, a);
  }

  /** What acquiring and releasing the display lock does to the counts, and to nothing else. */
  lemma DisplayLockMoves(lib: Library, p: Power, a: Answers)
    requires ValidAnswers(a) && CanRelease(lib) && NothingHeld(lib, p)
    ensures var q := Acquire(lib, p, DISPLAY_ID, a);
            && Held(q, DISPLAY_ID) <= Held(p, DISPLAY_ID) + 1 && Held(q, DISPLAY_ID_2) == Held(p, DISPLAY_ID_2)
            && NothingHeld(lib, q) && q == p.(locks := q.locks)
    ensures var q := Release(lib, p, DISPLAY_ID);
            && Held(q, DISPLAY_ID) <= (if Held(p, DISPLAY_ID) > 0 then Held(p, DISPLAY_ID) - 1 else 0)
            && Held(q, DISPLAY_ID_2) == Held(p, DISPLAY_ID_2)
            && NothingHeld(lib, q) && q == p.(locks := q.locks)
  {
    hide OfId;
    AcquireHolds(lib, p, DISPLAY_ID, a, DISPLAY_ID);
    AcquireHolds(lib, p, DISPLAY_ID, a, DISPLAY_ID_2);
    ReleaseHolds(lib, p, DISPLAY_ID, DISPLAY_ID);
    ReleaseHolds(lib, p, DISPLAY_ID, DISPLAY_ID_2);
    NothingToUndo(lib, p, DISPLAY_ID);
  }

  /** The locks and flags after power.c's own part. */
  lemma CommonLocks(lib: Library, p: Power, on: bool, a: Answers)
    requires ValidAnswers(a) && |p.slack| == SLACK_NODES
    ensures var q := Common(lib, p, on, a);
            var known := a.second == Some(Ondemand) || a.second == Some(Interactive);
            && q.overrideSent == p.overrideSent && q.hint2Sent == p.hint2Sent
            && q.initialReleases == p.initialReleases && q.firstOff == p.firstOff
            && (known && on ==> !q.sent && q.locks == Release(lib, p, DISPLAY_ID).locks)
            && (known && !on ==> q.sent && q.locks == if p.sent then p.locks else Acquire(lib, p, DISPLAY_ID, a).locks)
            && (!known ==> q.sent == p.sent && q.locks == p.locks)
  {
    hide Undo;
    hide Perform;
    hide ScaleAll;
    hide RestoreAll;
  }

  lemma CommonCovers(lib: Library, p: Power, on: bool, a: Answers)
    requires ValidAnswers(a) && |p.slack| == SLACK_NODES && CanRelease(lib) && FlagsCover(p) && NothingHeld(lib, p)
    ensures FlagsCover(Common(lib, p, on, a)) && NothingHeld(lib, Common(lib, p, on, a))
  {
    hide Common;
    hide OfId;
    hide Release;
    hide Acquire;
    DisplayLockMoves(lib, p, a);
    CommonLocks(lib, p, on, a);
  }

  lemma OverrideKeepsSlack(lib: Library, p: Power, on: bool, a: Answers)
    requires ValidAnswers(a)
    ensures var (q, handled) := Override(lib, p, on, a);
            q.slack == p.slack && q.mode == p.mode && (handled <==> a.first == Some(Ondemand))
  {
    hide Perform;
    hide Undo;
  }

  lemma DisplayCovers(lib: Library, p: Power, on: bool, a: Answers)
    requires ValidAnswers(a) && |p.slack| == SLACK_NODES && CanRelease(lib) && FlagsCover(p) && NothingHeld(lib, p)
    ensures FlagsCover(AfterInteractive(lib, p, on, a)) && NothingHeld(lib, AfterInteractive(lib, p, on, a))
  {
    hide Override;
    hide Common;
    hide FlagsCover;
    hide NothingHeld;
    OverrideCovers(lib, p, on, a);
    OverrideKeepsSlack(lib, p, on, a);
    var (p1, handled) := Override(lib, p, on, a);
    if !handled {
      CommonCovers(lib, p1, on, a);
    }
  }

  lemma VideoCovers(lib: Library, p: Power, decode: bool, metadata: Option<string>, a: Answers)
    requires ValidEvent(Video(decode, metadata, a)) && Foreign(Video(decode, metadata, a))
    requires FlagsCover(p) && NothingHeld(lib, p)
    ensures var q := VideoHint(lib, p, decode, metadata, a); FlagsCover(q) && NothingHeld(lib, q)
  {
    hide OfId;
    hide VideoMeta;
    hide Undo;
    if metadata.Some? {
      var id := VideoMeta(decode, metadata.value).hintId;
      AcquireHolds(lib, p, id, a, DISPLAY_ID);
      AcquireHolds(lib, p, id, a, DISPLAY_ID_2);
      ReleaseHolds(lib, p, id, DISPLAY_ID);
      ReleaseHolds(lib, p, id, DISPLAY_ID_2);
      NothingToUndo(lib, p, id);
    }
  }

  /** Over any run, with arbitrary governor readings, acquire failures and allocation failures. */
  lemma {:induction false} FlagsCoverEveryRun(lib: Library, boost: bool, nodes: seq<int>, es: seq<Event>)
    requires |nodes| == SLACK_NODES && ValidEvents(es) && CanRelease(lib)
    requires AllForeign(es)
    ensures var p := StateAfter(lib, Initial(boost, nodes), es); FlagsCover(p) && NothingHeld(lib, p)
  {
    if es != [] {
      FlagsCoverEveryRun(lib, boost, nodes, es[..|es| - 1]);
      var p, e := StateAfter(lib, Initial(boost, nodes), es[..|es| - 1]), es[|es| - 1];
      match e
      case Display(on, a) => DisplayCovers(lib, p, on, a);
      case Video(decode, metadata, a) => VideoCovers(lib, p, decode, metadata, a);
    }
  }

  /** The initial lock is released at most once in any run, whatever the library has and video hints ask for. */
  lemma {:induction false} InitialLockOnce(lib: Library, boost: bool, nodes: seq<int>, es: seq<Event>)
    requires |nodes| == SLACK_NODES && ValidEvents(es)
    ensures var p := StateAfter(lib, Initial(boost, nodes), es); p.initialReleases <= Bit(p.firstOff)
  {
    if es != [] {
      var front, e := es[..|es| - 1], es[|es| - 1];
      InitialLockOnce(lib, boost, nodes, front);
      InitialLockStep(lib, StateAfter(lib, Initial(boost, nodes), front), e);
      hide Next;
      hide Initial;
    }
  }

  lemma InitialLockStep(lib: Library, p: Power, e: Event)
    requires |p.slack| == SLACK_NODES && ValidEvent(e) && p.initialReleases <= Bit(p.firstOff)
    ensures var q := Next(lib, p, e); q.initialReleases <= Bit(q.firstOff)
  {
    hide Undo;
    hide Perform;
    hide VideoMeta;
    if e.Display? {
      var (p1, handled) := Override(lib, p, e.on, e.a);
      assert p1.initialReleases <= Bit(p1.firstOff);
      OverrideKeepsSlack(lib, p, e.on, e.a);
      CommonLocks(lib, p1, e.on, e.a);
      hide Override;
      hide Common;
    }
  }

  // ----- one display lock while the display is off

  /** The governors under which power.c requests the display lock itself. */
  predicate Known(r: Reading) {
    r == Some(Ondemand) || r == Some(Interactive)
  }

  /** Some code is in charge of the display lock: the override under ondemand, else power.c. */
  predicate Acts(a: Answers) {
    a.first == Some(Ondemand) || Known(a.second)
  }

  /** Display off requests the lock, given the flags of the override and of power.c. */
  predicate Asks(overrideSent: bool, sent: bool, a: Answers) {
    if a.first == Some(Ondemand) then !overrideSent else Known(a.second) && !sent
  }

  function Less(n: nat): nat {
    if n > 0 then n - 1 else 0
  }

  /** What one display call does to the tracked display locks and to the two flags, whatever the library answers. */
  lemma DisplayLockStep(lib: Library, p: Power, on: bool, a: Answers)
    requires ValidAnswers(a) && |p.slack| == SLACK_NODES
    ensures var q := AfterInteractive(lib, p, on, a);
            && Held(q, 0x0C00) ==
               (if !on then Held(p, 0x0C00) + Bit(Asks(p.overrideSent, p.sent, a) && Granted(lib, a))
                else if Acts(a) && lib.loaded && lib.release then Less(Held(p, 0x0C00))
                else Held(p, 0x0C00))
            && q.overrideSent == (if a.first == Some(Ondemand) then !on else p.overrideSent)
            && q.sent == (if a.first != Some(Ondemand) && Known(a.second) then !on else p.sent)
  {
    hide Override;
    hide Common;
    hide OfId;
    hide Undo;
    hide Perform;
    OverrideLockStep(lib, p, on, a);
    OverrideKeepsSlack(lib, p, on, a);
    var p1 := Override(lib, p, on, a).0;
    CommonLocks(lib, p1, on, a);
    AcquireHolds(lib, p1, DISPLAY_ID, a, DISPLAY_ID);
    ReleaseHolds(lib, p1, DISPLAY_ID, DISPLAY_ID);
  }

  lemma OverrideLockStep(lib: Library, p: Power, on: bool, a: Answers)
    requires ValidAnswers(a)
    ensures var q := Override(lib, p, on, a).0;
            && q.sent == p.sent
            && (a.first != Some(Ondemand) ==>
                  Held(q, DISPLAY_ID) == Held(p, DISPLAY_ID) && q.overrideSent == p.overrideSent)
            && (a.first == Some(Ondemand) ==>
                  && q.overrideSent == !on
                  && Held(q, DISPLAY_ID) ==
                     if !on then Held(p, DISPLAY_ID) + Bit(!p.overrideSent && Granted(lib, a))
                     else if lib.loaded && lib.release then Less(Held(p, DISPLAY_ID))
                     else Held(p, DISPLAY_ID))
  {
    hide Boost;
    hide OfId;
    hide Undo;
    hide Perform;
    BoostSparesDisplay(lib, p, on, a);
    var b := Boost(lib, p, on, a);
    AcquireHolds(lib, b, DISPLAY_ID, a, DISPLAY_ID);
    ReleaseHolds(lib, b, DISPLAY_ID, DISPLAY_ID);
  }

  lemma BoostSparesDisplay(lib: Library, p: Power, on: bool, a: Answers)
    requires ValidAnswers(a)
    ensures var q := Boost(lib, p, on, a);
            Held(q, DISPLAY_ID) == Held(p, DISPLAY_ID) && q.overrideSent == p.overrideSent && q.sent == p.sent
  {
    hide OfId;
    hide Undo;
    hide Perform;
    AcquireHolds(lib, p, DISPLAY_ID_2, a, DISPLAY_ID);
    var p1 := if p.firstOff then p
              else p.(firstOff := true,
                      initialReleases := p.initialReleases + if lib.loaded && lib.release then 1 else 0);
    ReleaseHolds(lib, p1, DISPLAY_ID_2, DISPLAY_ID);
  }

  lemma VideoSparesDisplay(lib: Library, p: Power, e: Event)
    requires ValidEvent(e) && e.Video? && Foreign(e) && |p.slack| == SLACK_NODES
    ensures var q := Next(lib, p, e);
            Held(q, DISPLAY_ID) == Held(p, DISPLAY_ID) && q.overrideSent == p.overrideSent && q.sent == p.sent
  {
    hide OfId;
    hide VideoMeta;
    hide Undo;
    hide Perform;
    if e.metadata.Some? {
      var id := VideoMeta(e.decode, e.metadata.value).hintId;
      AcquireHolds(lib, p, id, e.a, DISPLAY_ID);
      ReleaseHolds(lib, p, id, DISPLAY_ID);
    }
  }

  /** Whether the last display event switched the display off. */
  function LastOff(es: seq<Event>): bool {
    if es == [] then false
    else if es[|es| - 1].Display? then !es[|es| - 1].on
    else LastOff(es[..|es| - 1])
  }

  /** Whether the last display event that the override handled switched the display off. */
  function OverrideOff(es: seq<Event>): bool {
    if es == [] then false
    else
      var e := es[|es| - 1];
      if e.Display? && e.a.first == Some(Ondemand) then !e.on else OverrideOff(es[..|es| - 1])
  }

  /** The same for the display events that power.c handled under ondemand or interactive. */
  function CommonOff(es: seq<Event>): bool {
    if es == [] then false
    else
      var e := es[|es| - 1];
      if e.Display? && e.a.first != Some(Ondemand) && Known(e.a.second) then !e.on else CommonOff(es[..|es| - 1])
  }

  /** The requests that were granted since the display was last switched on. */
  function Requests(lib: Library, es: seq<Event>): nat {
    if es == [] then 0
    else
      var front, e := es[..|es| - 1], es[|es| - 1];
      if e.Video? then Requests(lib, front)
      else if e.on then 0
      else Requests(lib, front) + Bit(Asks(OverrideOff(front), CommonOff(front), e.a) && Granted(lib, e.a))
  }

  /** At every point of the run a display lock is held exactly while the display is off. */
  predicate LockFollows(lib: Library, p: Power, es: seq<Event>)
    requires ValidEvents(es) && |p.slack| == SLACK_NODES
  {
    && (Held(StateAfter(lib, p, es), DISPLAY_ID) > 0 <==> LastOff(es))
    && (es != [] ==> LockFollows(lib, p, es[..|es| - 1]))
  }

  /**
   * What the outside must answer for that: the first call that switches the display off requests a lock and gets
   * it, and the call that switches it on is handled and finds one lock, not two.
   */
  predicate SwitchesCount(lib: Library, es: seq<Event>) {
    es != [] ==>
      var front, e := es[..|es| - 1], es[|es| - 1];
      && SwitchesCount(lib, front)
      && (e.Display? && !e.on && !LastOff(front) ==>
            Asks(OverrideOff(front), CommonOff(front), e.a) && Granted(lib, e.a))
      && (e.Display? && e.on && LastOff(front) ==>
            Acts(e.a) && lib.loaded && lib.release && Requests(lib, front) == 1)
  }

  /** The two flags are what the last call of their own code says. */
  lemma {:induction false} FlagsOfRun(lib: Library, boost: bool, nodes: seq<int>, es: seq<Event>)
    requires |nodes| == SLACK_NODES && ValidEvents(es) && AllForeign(es)
    ensures var p := StateAfter(lib, Initial(boost, nodes), es);
            p.overrideSent == OverrideOff(es) && p.sent == CommonOff(es)
  {
    if es != [] {
      var front, e := es[..|es| - 1], es[|es| - 1];
      FlagsOfRun(lib, boost, nodes, front);
      var p := StateAfter(lib, Initial(boost, nodes), front);
      hide Held;
      match e
      case Display(on, a) => DisplayLockStep(lib, p, on, a);
      case Video(_, _, _) => VideoSparesDisplay(lib, p, e);
    }
  }

  /** The lock follows the display through a run exactly when every switch counts, with one lock per request. */
  lemma {:induction false} LockFollowsDisplay(lib: Library, boost: bool, nodes: seq<int>, es: seq<Event>)
    requires |nodes| == SLACK_NODES && ValidEvents(es) && AllForeign(es)
    ensures LockFollows(lib, Initial(boost, nodes), es) <==> SwitchesCount(lib, es)
    ensures SwitchesCount(lib, es) ==>
              Held(StateAfter(lib, Initial(boost, nodes), es), DISPLAY_ID) == Requests(lib, es)
  {
    if es != [] {
      var front, e := es[..|es| - 1], es[|es| - 1];
      LockFollowsDisplay(lib, boost, nodes, front);
      FlagsOfRun(lib, boost, nodes, front);
      var p := StateAfter(lib, Initial(boost, nodes), front);
      hide Initial;
      hide Held;
      hide AfterInteractive;
      hide VideoHint;
      match e
      case Display(on, a) => DisplayLockStep(lib, p, on, a);
      case Video(_, _, _) => VideoSparesDisplay(lib, p, e);
    }
  }

  // ----- a library that acquires but cannot release

  lemma AfterOneMore(lib: Library, p: Power, es: seq<Event>, e: Event)
    requires ValidEvents(es) && ValidEvent(e) && |p.slack| == SLACK_NODES
    ensures ValidEvents(es + [e]) && StateAfter(lib, p, es + [e]) == Next(lib, StateAfter(lib, p, es), e)
  {
    assert (es + [e])[..|es|] == es;
  }

  /** Off, on and off again under ondemand: two display locks are held, and one flag is set. */
  lemma LocksPileUp(lib: Library, boost: bool, nodes: seq<int>) returns (es: seq<Event>)
    requires |nodes| == SLACK_NODES && !CanRelease(lib)
    ensures ValidEvents(es) && AllForeign(es)
    ensures var p := StateAfter(lib, Initial(boost, nodes), es);
            Held(p, DISPLAY_ID) == 2 && p.overrideSent && !p.sent
  {
    var t := [true, true, true, true];
    var a := Answers(Some(Ondemand), Some(Ondemand), 5, true, true, t, t);
    var b, c := a.(handle := 6), a.(handle := 7);
    var p := Initial(boost, nodes);
    AfterOneMore(lib, p, [], Display(false, a));
    AfterOneMore(lib, p, [Display(false, a)], Display(true, b));
    AfterOneMore(lib, p, [Display(false, a), Display(true, b)], Display(false, c));
    es := [Display(false, a), Display(true, b), Display(false, c)];
    assert [] + [Display(false, a)] == [Display(false, a)];
    assert [Display(false, a)] + [Display(true, b)] == [Display(false, a), Display(true, b)];
    assert [Display(false, a), Display(true, b)] + [Display(false, c)] == es;
    assert Held(p, DISPLAY_ID) == 0 && !p.overrideSent && !p.sent;
    hide AfterInteractive;
    hide Held;
    hide ValidEvents;
    DisplayLockStep(lib, p, false, a);
    var p1 := Next(lib, p, Display(false, a));
    DisplayLockStep(lib, p1, true, b);
    DisplayLockStep(lib, Next(lib, p1, Display(true, b)), false, c);
  }

  /** The flags cover the display locks through all runs exactly if what is acquired can be released. */
  lemma FlagsCoverIffReleasable(lib: Library, boost: bool, nodes: seq<int>)
    requires |nodes| == SLACK_NODES
    ensures CanRelease(lib) <==>
            forall es :: ValidEvents(es) && AllForeign(es) ==> FlagsCover(StateAfter(lib, Initial(boost, nodes), es))
  {
    hide StateAfter;
    hide Held;
    if CanRelease(lib) {
      forall es | ValidEvents(es) && AllForeign(es) ensures FlagsCover(StateAfter(lib, Initial(boost, nodes), es)) {
        FlagsCoverEveryRun(lib, boost, nodes, es);
      }
    } else {
      var es := LocksPileUp(lib, boost, nodes);
      assert !FlagsCover(StateAfter(lib, Initial(boost, nodes), es));
    }
  }

  /** Both readings give the same governor, and what is asked for is acquired and tracked. */
  predicate Steady(lib: Library, e: Event, g: Governor) {
    Foreign(e) && (e.Display? ==> e.a.first == Some(g) && e.a.second == Some(g) && Granted(lib, e.a))
  }

  /** Under a steady ondemand or interactive governor exactly one display lock is held while the display is off. */
  lemma OneLockWhileOff(lib: Library, boost: bool, nodes: seq<int>, es: seq<Event>, g: Governor)
    requires |nodes| == SLACK_NODES && ValidEvents(es) && lib.loaded && lib.release
    requires (g == Ondemand || g == Interactive) && forall i :: 0 <= i < |es| ==> Steady(lib, es[i], g)
    ensures Held(StateAfter(lib, Initial(boost, nodes), es), DISPLAY_ID) == Bit(LastOff(es))
  {
    SteadySwitchesCount(lib, es, g);
    LockFollowsDisplay(lib, boost, nodes, es);
  }

  lemma {:induction false} SteadySwitchesCount(lib: Library, es: seq<Event>, g: Governor)
    requires lib.loaded && lib.release && (g == Ondemand || g == Interactive)
    requires forall i :: 0 <= i < |es| ==> Steady(lib, es[i], g)
    ensures SwitchesCount(lib, es) && Requests(lib, es) == Bit(LastOff(es))
    ensures OverrideOff(es) == (LastOff(es) && g == Ondemand) && CommonOff(es) == (LastOff(es) && g == Interactive)
  {
    if es != [] {
      SteadySwitchesCount(lib, es[..|es| - 1], g);
    }
  }

  /** With a changing governor a stale flag of the override suppresses the lock: off under ondemand, none held. */
  lemma StaleFlag(lib: Library, nodes: seq<int>)
    requires |nodes| == SLACK_NODES && lib == Library(true, true, true)
    ensures exists es: seq<Event> :: ValidEvents(es) && LastOff(es) && es[|es| - 1].a.first == Some(Ondemand)
                         && Held(StateAfter(lib, Initial(false, nodes), es), DISPLAY_ID) == 0
                         && StateAfter(lib, Initial(false, nodes), es).overrideSent
  {
    var t := [true, true, true, true];
    var e1 := Display(false, Answers(Some(Ondemand), Some(Ondemand), 5, true, true, t, t));
    var e2 := Display(true, Answers(Some(Interactive), Some(Interactive), 6, true, true, t, t));
    var e3 := Display(false, Answers(Some(Ondemand), Some(Ondemand), 7, true, true, t, t));
    var p := Initial(false, nodes);
    var h := Hint(ULong(DISPLAY_ID), 5);
    var p1 := Next(lib, p, e1);
    assert p1.locks.active == [h] && p1.overrideSent;
    var p2 := Next(lib, p1, e2);
    assert Without([h], 0) == [];
    assert p2.locks.active == [] && p2.overrideSent;
    var p3 := Next(lib, p2, e3);
    assert [e1, e2, e3][..2] == [e1, e2] && [e1, e2][..1] == [e1] && [e1][..0] == [];
    assert StateAfter(lib, p, [e1]) == p1;
    assert StateAfter(lib, p, [e1, e2]) == p2;
    assert StateAfter(lib, p, [e1, e2, e3]) == p3;
    assert ValidEvents([e1, e2, e3]) && LastOff([e1, e2, e3]);
  }
}
