/** The slack nodes over every run of display and video events. */
module SlackRuns {
  import opened Text
  import opened PerfLocks
  import opened PowerHal
  import opened PowerRuns

  predicate Natural(vs: seq<int>) {
    |vs| == SLACK_NODES && forall i :: 0 <= i < SLACK_NODES ==> 0 <= vs[i]
  }

  /** A display event that power.c processes, given the readings of the override and of power.c. */
  predicate Processed(a: Answers) {
    a.first != Some(Ondemand) && a.second.Some?
  }

  predicate ByDcvs(a: Answers) {
    a.first != Some(Ondemand) && a.second == Some(MsmDcvs)
  }

  lemma CommonSlack(lib: Library, p: Power, on: bool, a: Answers)
    requires ValidAnswers(a) && |p.slack| == SLACK_NODES
    ensures var q := Common(lib, p, on, a);
            && (a.second.None? ==> q == p)
            && (a.second.Some? ==> q.mode == Bit(on))
            && (a.second.Some? && a.second.value != MsmDcvs ==> q.slack == p.slack)
            && (a.second == Some(MsmDcvs) ==>
                  q.slack == if on then (if p.mode == -1 || p.mode == 0 then RestoreAll(p.slack, a) else p.slack)
                             else (if p.mode == 1 then ScaleAll(p.slack, a) else p.slack))
  {
  }

  /** One slack node across a display event. */
  lemma SlackNode(lib: Library, p: Power, on: bool, a: Answers, i: nat)
    requires ValidAnswers(a) && |p.slack| == SLACK_NODES && i < SLACK_NODES
    ensures var q, s := AfterInteractive(lib, p, on, a), p.slack[i];
            && q.mode == (if Processed(a) then Bit(on) else p.mode)
            && q.slack[i] ==
               if ByDcvs(a) && on && (p.mode == -1 || p.mode == 0) then
                 (if s.saved != -1 && a.writeOk[i] then s.(node := s.saved) else s)
               else if ByDcvs(a) && !on && p.mode == 1 then
                 var saved := if a.readOk[i] then s.node else s.saved;
                 Slack(saved, if saved != -1 && a.writeOk[i] then 10 * saved else s.node)
               else s
  {
    OverrideKeepsSlack(lib, p, on, a);
    var (p1, handled) := Override(lib, p, on, a);
    CommonSlack(lib, p1, on, a);
    hide Override;
    hide Common;
  }

  // ----- restoring

  predicate AtOriginal(p: Power, vs: seq<int>)
    requires |p.slack| == |vs| == SLACK_NODES
  {
    forall i :: 0 <= i < SLACK_NODES ==> p.slack[i].node == vs[i]
  }

  /** A node is at its original value v, or at 10 * v with v saved while the last processed event was an "off". */
  predicate NodeOk(s: Slack, v: int, mode: int) {
    && (s.saved == -1 || s.saved == v)
    && (s.node == v || (s.node == 10 * v && s.saved == v && mode == 0))
  }

  predicate SlackOk(p: Power, vs: seq<int>)
    requires |p.slack| == |vs| == SLACK_NODES
  {
    forall i :: 0 <= i < SLACK_NODES ==> NodeOk(p.slack[i], vs[i], p.mode)
  }

  /** A scaled node that a display-on with these answers does not write back. */
  predicate LeavesScaled(p: Power, vs: seq<int>, a: Answers)
    requires |p.slack| == |vs| == SLACK_NODES && ValidAnswers(a)
  {
    exists i :: 0 <= i < SLACK_NODES && p.slack[i].node != vs[i] && !(ByDcvs(a) && a.writeOk[i])
  }

  /** A display-on that forgets a scaled node: it counts as "on" from then on. */
  predicate Strays(p: Power, vs: seq<int>, e: Event)
    requires |p.slack| == |vs| == SLACK_NODES && ValidEvent(e)
  {
    e.Display? && e.on && Processed(e.a) && LeavesScaled(p, vs, e.a)
  }

  lemma SlackStep(lib: Library, p: Power, vs: seq<int>, e: Event)
    requires |p.slack| == SLACK_NODES && ValidEvent(e) && Natural(vs) && SlackOk(p, vs)
    ensures SlackOk(Next(lib, p, e), vs) <==> !Strays(p, vs, e)
    ensures e.Display? && e.on ==> (AtOriginal(Next(lib, p, e), vs) <==> !LeavesScaled(p, vs, e.a))
  {
    if e.Display? {
      var q := Next(lib, p, e);
      forall i | 0 <= i < SLACK_NODES
        ensures NodeOk(p.slack[i], vs[i], p.mode)
        ensures NodeOk(q.slack[i], vs[i], q.mode) <==>
                !(e.on && Processed(e.a) && p.slack[i].node != vs[i] && !(ByDcvs(e.a) && e.a.writeOk[i]))
        ensures e.on ==> (q.slack[i].node != vs[i] <==> p.slack[i].node != vs[i] && !(ByDcvs(e.a) && e.a.writeOk[i]))
      {
        SlackNode(lib, p, e.on, e.a, i);
        hide AfterInteractive;
      }
      hide AfterInteractive;
    }
  }

  /** A display-on leaves all nodes at their values exactly when it writes back every node that is scaled. */
  lemma OnRestoresIff(lib: Library, p: Power, vs: seq<int>, a: Answers)
    requires |p.slack| == SLACK_NODES && ValidAnswers(a) && Natural(vs) && SlackOk(p, vs)
    requires forall i :: 0 <= i < SLACK_NODES ==> a.writeOk[i]
    ensures AtOriginal(Next(lib, p, Display(true, a)), vs) <==> AtOriginal(p, vs) || ByDcvs(a)
  {
    SlackStep(lib, p, vs, Display(true, a));
    hide AfterInteractive;
  }

  /** After every display-on of the run all nodes are at their original values. */
  predicate EveryOnRestores(lib: Library, p: Power, vs: seq<int>, es: seq<Event>)
    requires ValidEvents(es) && |p.slack| == |vs| == SLACK_NODES
  {
    es != [] ==>
      && EveryOnRestores(lib, p, vs, es[..|es| - 1])
      && (es[|es| - 1].Display? && es[|es| - 1].on ==> AtOriginal(StateAfter(lib, p, es), vs))
  }

  /** Every display-on that finds a scaled node is processed under msm-dcvs and can write the node. */
  predicate EveryOnReaches(lib: Library, p: Power, vs: seq<int>, es: seq<Event>)
    requires ValidEvents(es) && |p.slack| == |vs| == SLACK_NODES
  {
    es != [] ==>
      && EveryOnReaches(lib, p, vs, es[..|es| - 1])
      && (es[|es| - 1].Display? && es[|es| - 1].on ==>
            !LeavesScaled(StateAfter(lib, p, es[..|es| - 1]), vs, es[|es| - 1].a))
  }

  /** Over any run, whatever is read and written, including failing reads and writes. */
  lemma {:induction false} RestoredIffReached(lib: Library, boost: bool, vs: seq<int>, es: seq<Event>)
    requires Natural(vs) && ValidEvents(es)
    ensures EveryOnRestores(lib, Initial(boost, vs), vs, es) <==> EveryOnReaches(lib, Initial(boost, vs), vs, es)
    ensures EveryOnReaches(lib, Initial(boost, vs), vs, es) ==> SlackOk(StateAfter(lib, Initial(boost, vs), es), vs)
  {
    if es != [] {
      RestoredIffReached(lib, boost, vs, es[..|es| - 1]);
      var p := StateAfter(lib, Initial(boost, vs), es[..|es| - 1]);
      if SlackOk(p, vs) {
        SlackStep(lib, p, vs, es[|es| - 1]);
      }
      hide Initial;
      hide Next;
      hide LeavesScaled;
      hide SlackOk;
    }
  }

  predicate NeverStrays(lib: Library, p: Power, vs: seq<int>, es: seq<Event>)
    requires ValidEvents(es) && |p.slack| == |vs| == SLACK_NODES
  {
    es != [] ==> NeverStrays(lib, p, vs, es[..|es| - 1])
                 && !Strays(StateAfter(lib, p, es[..|es| - 1]), vs, es[|es| - 1])
  }

  lemma {:induction false} SlackOfEveryRun(lib: Library, boost: bool, vs: seq<int>, es: seq<Event>)
    requires Natural(vs) && ValidEvents(es) && NeverStrays(lib, Initial(boost, vs), vs, es)
    ensures SlackOk(StateAfter(lib, Initial(boost, vs), es), vs)
  {
    if es != [] {
      SlackOfEveryRun(lib, boost, vs, es[..|es| - 1]);
      SlackStep(lib, StateAfter(lib, Initial(boost, vs), es[..|es| - 1]), vs, es[|es| - 1]);
    }
  }

  /** Restoring writes succeed; saving reads and scaling writes may fail. */
  predicate Restores(e: Event) {
    e.Display? && e.on ==> forall i :: 0 <= i < |e.a.writeOk| ==> e.a.writeOk[i]
  }

  /** Readings that always give msm-dcvs, or fail. */
  predicate OnlyDcvs(e: Event) {
    e.Display? ==> (e.a.first.None? || e.a.first == Some(MsmDcvs)) && (e.a.second.None? || e.a.second == Some(MsmDcvs))
  }

  lemma {:induction false} FixedGovernorNeverStrays(lib: Library, p: Power, vs: seq<int>, es: seq<Event>)
    requires ValidEvents(es) && |p.slack| == |vs| == SLACK_NODES
    requires forall i :: 0 <= i < |es| ==> Restores(es[i]) && OnlyDcvs(es[i])
    ensures NeverStrays(lib, p, vs, es)
  {
    if es != [] {
      FixedGovernorNeverStrays(lib, p, vs, es[..|es| - 1]);
    }
  }

  /**
   * Under a fixed msm-dcvs governor each node is always at v or 10 * v, with v or nothing saved, and a display-on
   * whose reading succeeds leaves all nodes at their original values.
   */
  lemma OnRestores(lib: Library, boost: bool, vs: seq<int>, es: seq<Event>)
    requires Natural(vs) && ValidEvents(es)
    requires forall i :: 0 <= i < |es| ==> Restores(es[i]) && OnlyDcvs(es[i])
    ensures SlackOk(StateAfter(lib, Initial(boost, vs), es), vs)
    ensures es != [] && es[|es| - 1].Display? && es[|es| - 1].on && es[|es| - 1].a.second.Some? ==>
              AtOriginal(StateAfter(lib, Initial(boost, vs), es), vs)
  {
    FixedGovernorNeverStrays(lib, Initial(boost, vs), vs, es);
    SlackOfEveryRun(lib, boost, vs, es);
    if es != [] {
      var front := es[..|es| - 1];
      SlackOfEveryRun(lib, boost, vs, front);
      SlackStep(lib, StateAfter(lib, Initial(boost, vs), front), vs, es[|es| - 1]);
      hide Next;
    }
  }

  /** Slack nodes are left alone until the display has been on and then off: nothing was saved before. */
  lemma {:induction false} OneWayRunsKeepSlack(lib: Library, boost: bool, vs: seq<int>, es: seq<Event>)
    requires |vs| == SLACK_NODES && ValidEvents(es)
    requires (forall i :: 0 <= i < |es| && es[i].Display? ==> es[i].on)
             || (forall i :: 0 <= i < |es| && es[i].Display? ==> !es[i].on)
    ensures var p := StateAfter(lib, Initial(boost, vs), es);
            forall i :: 0 <= i < SLACK_NODES ==> p.slack[i] == Slack(-1, vs[i])
    ensures (forall i :: 0 <= i < |es| && es[i].Display? ==> !es[i].on) ==>
              StateAfter(lib, Initial(boost, vs), es).mode != 1
  {
    if es != [] {
      var front, e := es[..|es| - 1], es[|es| - 1];
      OneWayRunsKeepSlack(lib, boost, vs, front);
      var p := StateAfter(lib, Initial(boost, vs), front);
      hide AfterInteractive;
      if e.Display? {
        forall i: nat | i < SLACK_NODES ensures Next(lib, p, e).slack[i] == Slack(-1, vs[i]) {
          SlackNode(lib, p, e.on, e.a, i);
        }
        SlackNode(lib, p, e.on, e.a, 0);
      }
    }
  }

  // ----- never above tenfold

  predicate NodesInRange(p: Power, vs: seq<int>)
    requires |p.slack| == |vs| == SLACK_NODES
  {
    forall i :: 0 <= i < SLACK_NODES ==> p.slack[i].node == vs[i] || p.slack[i].node == 10 * vs[i]
  }

  predicate SavedInRange(p: Power, vs: seq<int>)
    requires |p.slack| == |vs| == SLACK_NODES
  {
    forall i :: 0 <= i < SLACK_NODES ==> p.slack[i].saved in {-1, vs[i], 10 * vs[i]}
  }

  /** The value that a display-off takes for the original one. */
  function Taken(s: Slack, readOk: bool): int {
    if readOk then s.node else s.saved
  }

  /** A display-off that scales a node whose value it takes is tenfold already. */
  predicate Overscales(p: Power, vs: seq<int>, e: Event)
    requires |p.slack| == |vs| == SLACK_NODES && ValidEvent(e)
  {
    && e.Display? && !e.on && ByDcvs(e.a) && p.mode == 1
    && exists i :: 0 <= i < SLACK_NODES && vs[i] > 0 && e.a.writeOk[i] && Taken(p.slack[i], e.a.readOk[i]) == 10 * vs[i]
  }

  /** One event takes a node above tenfold exactly when it overscales. */
  lemma TenfoldStep(lib: Library, p: Power, vs: seq<int>, e: Event)
    requires |p.slack| == SLACK_NODES && ValidEvent(e) && Natural(vs) && NodesInRange(p, vs) && SavedInRange(p, vs)
    ensures NodesInRange(Next(lib, p, e), vs) <==> !Overscales(p, vs, e)
    ensures SavedInRange(Next(lib, p, e), vs)
  {
    if e.Display? {
      var q := Next(lib, p, e);
      forall i | 0 <= i < SLACK_NODES
        ensures q.slack[i].saved in {-1, vs[i], 10 * vs[i]}
        ensures q.slack[i].node == vs[i] || q.slack[i].node == 10 * vs[i] <==>
                !(!e.on && ByDcvs(e.a) && p.mode == 1 && vs[i] > 0 && e.a.writeOk[i]
                  && Taken(p.slack[i], e.a.readOk[i]) == 10 * vs[i])
      {
        SlackNode(lib, p, e.on, e.a, i);
        hide AfterInteractive;
      }
      hide AfterInteractive;
    }
  }

  predicate NeverAboveTenfold(lib: Library, p: Power, vs: seq<int>, es: seq<Event>)
    requires ValidEvents(es) && |p.slack| == |vs| == SLACK_NODES
  {
    && NodesInRange(StateAfter(lib, p, es), vs)
    && (es != [] ==> NeverAboveTenfold(lib, p, vs, es[..|es| - 1]))
  }

  predicate NeverOverscales(lib: Library, p: Power, vs: seq<int>, es: seq<Event>)
    requires ValidEvents(es) && |p.slack| == |vs| == SLACK_NODES
  {
    es != [] ==> NeverOverscales(lib, p, vs, es[..|es| - 1])
                 && !Overscales(StateAfter(lib, p, es[..|es| - 1]), vs, es[|es| - 1])
  }

  /** Over any run, whatever is read and written, every node stays at v or 10 * v exactly when no event overscales. */
  lemma {:induction false} TenfoldAtMost(lib: Library, boost: bool, vs: seq<int>, es: seq<Event>)
    requires Natural(vs) && ValidEvents(es)
    ensures NeverAboveTenfold(lib, Initial(boost, vs), vs, es) <==> NeverOverscales(lib, Initial(boost, vs), vs, es)
    ensures NeverOverscales(lib, Initial(boost, vs), vs, es) ==>
              SavedInRange(StateAfter(lib, Initial(boost, vs), es), vs)
  {
    if es != [] {
      TenfoldAtMost(lib, boost, vs, es[..|es| - 1]);
      var p := StateAfter(lib, Initial(boost, vs), es[..|es| - 1]);
      if NodesInRange(p, vs) && SavedInRange(p, vs) {
        TenfoldStep(lib, p, vs, es[|es| - 1]);
      }
      hide Initial;
      hide Next;
      hide Overscales;
      hide NodesInRange;
      hide SavedInRange;
    }
  }

  // ----- runs that fail

  lemma AfterThree(lib: Library, p: Power, a: Event, b: Event, c: Event)
    requires ValidEvents([a, b, c]) && |p.slack| == SLACK_NODES
    ensures ValidEvent(a) && ValidEvent(b) && ValidEvent(c)
    ensures StateAfter(lib, p, [a, b, c]) == Next(lib, Next(lib, Next(lib, p, a), b), c)
  {
    var es := [a, b, c];
    assert es[0] == a && es[1] == b && es[2] == c;
    hide Next;
    assert es[..2] == [a, b] && [a, b][..1] == [a] && [a][..0] == [];
    assert StateAfter(lib, p, [a]) == Next(lib, p, a);
    assert StateAfter(lib, p, [a, b]) == Next(lib, Next(lib, p, a), b);
  }

  /** After on and off under msm-dcvs, an "on" under another governor leaves the node scaled and "off" scales again. */
  lemma ScaledAndForgotten(lib: Library, vs: seq<int>, dcvs: Answers, other: Answers)
    requires Natural(vs) && ValidAnswers(dcvs) && ValidAnswers(other)
    requires dcvs.first == dcvs.second == Some(MsmDcvs) && dcvs.readOk[0] && dcvs.writeOk[0]
    requires !ByDcvs(other)
    ensures var es := [Display(true, dcvs), Display(false, dcvs), Display(true, other)];
            && ValidEvents(es)
            && var p := StateAfter(lib, Initial(false, vs), es);
            && p.slack[0].node == 10 * vs[0]
            && (Processed(other) ==> Next(lib, p, Display(false, dcvs)).slack[0].node == 100 * vs[0])
  {
    var on, off, missed := Display(true, dcvs), Display(false, dcvs), Display(true, other);
    var p := Initial(false, vs);
    assert p.slack[0] == Slack(-1, vs[0]) && p.mode == -1;
    hide Initial;
    hide StateAfter;
    AfterThree(lib, p, on, off, missed);
    hide AfterInteractive;
    var p1 := Next(lib, p, on);
    SlackNode(lib, p, true, dcvs, 0);
    var p2 := Next(lib, p1, off);
    SlackNode(lib, p1, false, dcvs, 0);
    var p3 := Next(lib, p2, missed);
    SlackNode(lib, p2, true, other, 0);
    SlackNode(lib, p3, false, dcvs, 0);
  }

  predicate WritesSucceed(e: Event) {
    e.Display? && forall i :: 0 <= i < |e.a.writeOk| ==> e.a.writeOk[i]
  }

  /** A run of display events with successful writes after which the first node is at `factor` times its value. */
  predicate EndsAt(lib: Library, vs: seq<int>, es: seq<Event>, factor: nat)
    requires Natural(vs)
  {
    && ValidEvents(es) && (forall i :: 0 <= i < |es| ==> WritesSucceed(es[i]))
    && StateAfter(lib, Initial(false, vs), es).slack[0].node == factor * vs[0]
  }

  predicate EndsOn(es: seq<Event>, reading: Reading) {
    es != [] && var e := es[|es| - 1]; e.Display? && e.on && e.a.first == e.a.second == reading
  }

  /** A display-on that the override handles, or that cannot read the governor, can leave a node at tenfold. */
  lemma StaysTenfold(lib: Library, vs: seq<int>, reading: Reading)
    requires Natural(vs) && reading != Some(MsmDcvs)
    ensures exists es :: EndsAt(lib, vs, es, 10) && EndsOn(es, reading)
  {
    hide StateAfter;
    hide Initial;
    hide ValidEvents;
    var t := [true, true, true, true];
    var dcvs := Answers(Some(MsmDcvs), Some(MsmDcvs), -1, true, true, t, t);
    var other := Answers(reading, reading, -1, true, true, t, t);
    ScaledAndForgotten(lib, vs, dcvs, other);
    assert EndsAt(lib, vs, [Display(true, dcvs), Display(false, dcvs), Display(true, other)], 10);
  }

  /** When the governor changes in between, every write succeeding, a node can reach a hundred times its value. */
  lemma TenfoldTwice(lib: Library, vs: seq<int>)
    requires Natural(vs)
    ensures exists es :: EndsAt(lib, vs, es, 100)
  {
    hide ValidEvents;
    hide AfterInteractive;
    var t := [true, true, true, true];
    var dcvs := Answers(Some(MsmDcvs), Some(MsmDcvs), -1, true, true, t, t);
    var inter := Answers(Some(Interactive), Some(Interactive), -1, true, true, t, t);
    ScaledAndForgotten(lib, vs, dcvs, inter);
    var es := [Display(true, dcvs), Display(false, dcvs), Display(true, inter)];
    var last := Display(false, dcvs);
    AfterOneMore(lib, Initial(false, vs), es, last);
    hide StateAfter;
    assert EndsAt(lib, vs, es + [last], 100);
  }
}
