/** power.c with the overrides of power-8974.c: display on/off, slack times, and video encode hints. */
module PowerHal {
  import opened Text
  import opened PerfLocks
  import opened HintList
  import opened Metadata

  const VIDEO_ENCODE_ID: int := 0x0A00
  const VIDEO_DECODE_ID: int := 0x0B00
  const DISPLAY_ID: int := 0x0C00
  const DISPLAY_ID_2: int := 0x0D00

  /** A reading of the scaling governor; None when it cannot be read. */
  datatype Governor = Ondemand | Interactive | MsmDcvs | OtherGovernor

  type Reading = Option<Governor>

  /** What the outside answers during one call. */
  datatype Answers = Answers(
    first: Reading, second: Reading,    // the governor as read by the override and by power.c
    handle: int, hintOk: bool, nodeOk: bool,
    readOk: seq<bool>, writeOk: seq<bool>)

  predicate ValidAnswers(a: Answers) {
    IsInt(a.handle) && |a.readOk| == SLACK_NODES && |a.writeOk| == SLACK_NODES
  }

  /** The four slack nodes: two of the msm_dcvs module and two of msm_mpdecision. */
  const SLACK_NODES: nat := 4

  /** A slack node's saved value (-1 for none) and the value that the kernel holds. */
  datatype Slack = Slack(saved: int, node: int)

  /** All static state of the three files. */
  datatype Power = Power(
    locks: Locks, initialReleases: nat, boost: bool,
    overrideSent: bool, hint2Sent: bool, firstOff: bool,
    sent: bool, mode: int, slack: seq<Slack>)

  function Initial(boost: bool, nodes: seq<int>): Power {
    Power(NO_LOCKS, 0, boost, false, false, false, false, -1,
          seq(|nodes|, i requires 0 <= i < |nodes| => Slack(-1, nodes[i])))
  }

  // ----- set_interactive as a function

  function Acquire(lib: Library, p: Power, id: int, a: Answers): Power
    requires IsInt(id) && ValidAnswers(a)
  {
    p.(locks := Perform(lib, p.locks, id, a.handle, a.hintOk && a.nodeOk))
  }

  function Release(lib: Library, p: Power, id: int): Power
    requires IsInt(id)
  {
    p.(locks := Undo(lib, p.locks, id))
  }

  /** The display_boost part of the override. */
  function Boost(lib: Library, p: Power, on: bool, a: Answers): Power
    requires ValidAnswers(a)
  {
    if !p.boost then p
    else if on then
      if p.hint2Sent then Acquire(lib, p, DISPLAY_ID_2, a).(hint2Sent := false) else p
    else
      var p1 := if p.firstOff then p
                else p.(firstOff := true,
                        initialReleases := p.initialReleases + if lib.loaded && lib.release then 1 else 0);
      if p1.hint2Sent then p1 else Release(lib, p1, DISPLAY_ID_2).(hint2Sent := true)
  }

  /** set_interactive_override: the new state, and whether the call is handled. */
  function Override(lib: Library, p: Power, on: bool, a: Answers): (Power, bool)
    requires ValidAnswers(a)
  {
    if a.first.None? then (p, false)
    else
      var p1 := Boost(lib, p, on, a);
      if a.first != Some(Ondemand) then (p1, false)
      else if on then (Release(lib, p1, DISPLAY_ID).(overrideSent := false), true)
      else if p1.overrideSent then (p1, true)
      else (Acquire(lib, p1, DISPLAY_ID, a).(overrideSent := true), true)
  }

  /** Display off under msm-dcvs: save what can be read, then write ten times the saved value. */
  function ScaleOne(s: Slack, readOk: bool, writeOk: bool): Slack {
    var saved := if readOk then s.node else s.saved;
    Slack(saved, if saved != -1 && writeOk then 10 * saved else s.node)
  }

  function RestoreOne(s: Slack, writeOk: bool): Slack {
    if s.saved != -1 && writeOk then s.(node := s.saved) else s
  }

  function ScaleAll(slack: seq<Slack>, a: Answers): seq<Slack>
    requires |slack| == SLACK_NODES && ValidAnswers(a)
  {
    seq(SLACK_NODES, i requires 0 <= i < SLACK_NODES => ScaleOne(slack[i], a.readOk[i], a.writeOk[i]))
  }

  function RestoreAll(slack: seq<Slack>, a: Answers): seq<Slack>
    requires |slack| == SLACK_NODES && ValidAnswers(a)
  {
    seq(SLACK_NODES, i requires 0 <= i < SLACK_NODES => RestoreOne(slack[i], a.writeOk[i]))
  }

  function SlackOff(p: Power, a: Answers): Power
    requires |p.slack| == SLACK_NODES && ValidAnswers(a)
  {
    if p.mode == 1 then p.(slack := ScaleAll(p.slack, a)) else p
  }

  function SlackOn(p: Power, a: Answers): Power
    requires |p.slack| == SLACK_NODES && ValidAnswers(a)
  {
    if p.mode == -1 || p.mode == 0 then p.(slack := RestoreAll(p.slack, a)) else p
  }

  /** The part of set_interactive behind the override. */
  function Common(lib: Library, p: Power, on: bool, a: Answers): Power
    requires |p.slack| == SLACK_NODES && ValidAnswers(a)
  {
    match a.second
    case None => p
    case Some(governor) =>
      var p1 :=
        if governor == Ondemand || governor == Interactive then
          if on then Release(lib, p, DISPLAY_ID).(sent := false)
          else if p.sent then p
          else Acquire(lib, p, DISPLAY_ID, a).(sent := true)
        else if governor == MsmDcvs then if on then SlackOn(p, a) else SlackOff(p, a)
        else p;
      p1.(mode := if on then 1 else 0)
  }

  function AfterInteractive(lib: Library, p: Power, on: bool, a: Answers): (q: Power)
    requires |p.slack| == SLACK_NODES && ValidAnswers(a)
    ensures |q.slack| == SLACK_NODES
  {
    var (p1, handled) := Override(lib, p, on, a);
    if handled then p1 else Common(lib, p1, on, a)
  }

  /** process_video_encode_hint and process_video_decode_hint; metadata is None for a null pointer. */
  function VideoHint(lib: Library, p: Power, decode: bool, metadata: Option<string>, a: Answers): Power
    requires ValidAnswers(a) && (metadata.Some? ==> IsInt(VideoMeta(decode, metadata.value).hintId))
  {
    if a.first.None? || metadata.None? then p
    else
      var m := VideoMeta(decode, metadata.value);
      var known := a.first == Some(Ondemand) || a.first == Some(Interactive);
      if m.state == 1 && known then Acquire(lib, p, m.hintId, a)
      else if m.state == 0 && known && !(decode && a.first == Some(Ondemand)) then Release(lib, p, m.hintId)
      else p
  }

  function VideoMeta(decode: bool, metadata: string): VideoMetadata {
    Parse(VideoMetadata(if decode then VIDEO_DECODE_ID else VIDEO_ENCODE_ID, -1), metadata)
  }

  // ----- the same on the heap

  /** The globals of power.c and power-8974.c around the tracker of utils.c. */
  class Hal {
    const tracker: HintTracker
    var displayBoost: bool
    var overrideSent: bool
    var hint2Sent: bool
    var firstOff: bool
    var displayHintSent: bool
    var savedInteractiveMode: int
    const saved: array<int>
    const sysfs: array<int>

    ghost predicate Valid()
      reads this, tracker, tracker.head, set n | n in tracker.nodes
    {
      tracker.Valid() && saved.Length == SLACK_NODES && sysfs.Length == SLACK_NODES && saved != sysfs
    }

    ghost function Value(): Power
      requires Valid()
      reads saved, sysfs, this, tracker, tracker.head, set n | n in tracker.nodes
    {
      Power(tracker.Value(), tracker.initialReleases, displayBoost, overrideSent, hint2Sent, firstOff,
            displayHintSent, savedInteractiveMode, SlackOf(saved[..], sysfs[..]))
    }

    /** The static initial values; the slack nodes hold whatever the kernel put there. */
    constructor (lib: Library, boost: bool, nodes: seq<int>)
      requires |nodes| == SLACK_NODES
      ensures Valid() && tracker.lib == lib && Value() == Initial(boost, nodes)
    {
      tracker := new HintTracker(lib);
      displayBoost := boost;
      overrideSent, hint2Sent, firstOff, displayHintSent := false, false, false, false;
      savedInteractiveMode := -1;
      saved := new int[SLACK_NODES](_ => -1);
      sysfs := new int[SLACK_NODES](i requires 0 <= i < |nodes| => nodes[i]);
      new;
      assert SlackOf(saved[..], sysfs[..]) == Initial(boost, nodes).slack;
    }

    /** The display_boost parts of set_interactive_override, for display off and display on. */
    method ApplyBoost(on: bool, a: Answers)
      requires Valid() && ValidAnswers(a)
      modifies this, tracker, tracker.head, set n | n in tracker.nodes
      ensures Valid() && Value() == Boost(tracker.lib, old(Value()), on, a)
      ensures forall n :: n in tracker.nodes ==> n in old(tracker.nodes) || fresh(n)
    {
      hide Perform;
      hide Undo;
      hide Linked;
      hide AllById;
      if !on {
        if displayBoost {
          if !firstOff {
            tracker.UndoInitialHintAction();
            firstOff := true;
          }
          if !hint2Sent {
            tracker.UndoHintAction(DISPLAY_ID_2);
            hint2Sent := true;
          }
        }
      } else {
        if displayBoost && hint2Sent {
          tracker.PerformHintAction(DISPLAY_ID_2, a.handle, a.hintOk, a.nodeOk);
          hint2Sent := false;
        }
      }
    }

    /** set_interactive_override of power-8974.c */
    method SetInteractiveOverride(on: bool, a: Answers) returns (handled: bool)
      requires Valid() && ValidAnswers(a)
      modifies this, tracker, tracker.head, set n | n in tracker.nodes
      ensures Valid() && (Value(), handled) == Override(tracker.lib, old(Value()), on, a)
      ensures forall n :: n in tracker.nodes ==> n in old(tracker.nodes) || fresh(n)
    {
      hide Perform;
      hide Undo;
      hide Linked;
      hide AllById;
      if a.first.None? {
        return false;
      }
      ApplyBoost(on, a);
      if !on {
        if a.first.value == Ondemand {
          if !overrideSent {
            tracker.PerformHintAction(DISPLAY_ID, a.handle, a.hintOk, a.nodeOk);
            overrideSent := true;
          }
          return true;
        }
      } else {
        if a.first.value == Ondemand {
          tracker.UndoHintAction(DISPLAY_ID);
          overrideSent := false;
          return true;
        }
      }
      return false;
    }

    /** The sysfs_read and sysfs_write calls of display off. */
    method ScaleSlack(a: Answers)
      requires Valid() && ValidAnswers(a)
      modifies saved, sysfs
      ensures SlackOf(saved[..], sysfs[..]) == ScaleAll(old(SlackOf(saved[..], sysfs[..])), a)
    {
      for i := 0 to SLACK_NODES
        invariant sysfs[..] == old(sysfs[..])
        invariant forall k :: 0 <= k < i ==> saved[k] == if a.readOk[k] then old(sysfs[k]) else old(saved[k])
        invariant forall k :: i <= k < SLACK_NODES ==> saved[k] == old(saved[k])
      {
        if a.readOk[i] {
          saved[i] := sysfs[i];
        }
      }
      ghost var kept := saved[..];
      for i := 0 to SLACK_NODES
        invariant saved[..] == kept
        invariant forall k :: 0 <= k < i ==>
                    sysfs[k] == if saved[k] != -1 && a.writeOk[k] then 10 * saved[k] else old(sysfs[k])
        invariant forall k :: i <= k < SLACK_NODES ==> sysfs[k] == old(sysfs[k])
      {
        if saved[i] != -1 {
          if a.writeOk[i] {
            sysfs[i] := 10 * saved[i];
          }
        }
      }
    }

    /** The sysfs_write calls of display on. */
    method RestoreSlack(a: Answers)
      requires Valid() && ValidAnswers(a)
      modifies sysfs
      ensures SlackOf(saved[..], sysfs[..]) == RestoreAll(old(SlackOf(saved[..], sysfs[..])), a)
    {
      for i := 0 to SLACK_NODES
        invariant saved[..] == old(saved[..])
        invariant forall k :: 0 <= k < i ==>
                    sysfs[k] == if saved[k] != -1 && a.writeOk[k] then saved[k] else old(sysfs[k])
        invariant forall k :: i <= k < SLACK_NODES ==> sysfs[k] == old(sysfs[k])
      {
        if saved[i] != -1 {
          if a.writeOk[i] {
            sysfs[i] := saved[i];
          }
        }
      }
    }

    /** set_interactive of power.c */
    method SetInteractive(on: bool, a: Answers)
      requires Valid() && ValidAnswers(a)
      modifies saved, sysfs, this, tracker, tracker.head, set n | n in tracker.nodes
      ensures Valid() && Value() == AfterInteractive(tracker.lib, old(Value()), on, a)
      ensures forall n :: n in tracker.nodes ==> n in old(tracker.nodes) || fresh(n)
    {
      hide Perform;
      hide Undo;
      hide Linked;
      hide AllById;
      hide Override;
      hide ScaleAll;
      hide RestoreAll;
      hide HintsOf;
      hide HaveData;
      var handled := SetInteractiveOverride(on, a);
      if handled {
        return;
      }
      if a.second.None? {
        return;
      }
      var governor := a.second.value;
      if !on {
        if governor == Ondemand || governor == Interactive {
          if !displayHintSent {
            tracker.PerformHintAction(DISPLAY_ID, a.handle, a.hintOk, a.nodeOk);
            displayHintSent := true;
          }
        } else if governor == MsmDcvs {
          if savedInteractiveMode == 1 {
            ScaleSlack(a);
          }
        }
      } else {
        if governor == Ondemand || governor == Interactive {
          tracker.UndoHintAction(DISPLAY_ID);
          displayHintSent := false;
        } else if governor == MsmDcvs {
          if savedInteractiveMode == -1 || savedInteractiveMode == 0 {
            RestoreSlack(a);
          }
        }
      }
      savedInteractiveMode := if on then 1 else 0;
    }

    /** process_video_encode_hint of power.c */
    method ProcessVideoEncodeHint(metadata: Option<string>, a: Answers)
      requires Valid() && ValidAnswers(a)
      requires metadata.Some? ==> IsInt(VideoMeta(false, metadata.value).hintId)
      modifies tracker, tracker.head, set n | n in tracker.nodes
      ensures Valid() && Value() == VideoHint(tracker.lib, old(Value()), false, metadata, a)
      ensures forall n :: n in tracker.nodes ==> n in old(tracker.nodes) || fresh(n)
    {
      if a.first.None? {
        return;
      }
      var meta := VideoMetadata(VIDEO_ENCODE_ID, -1);
      if metadata.Some? {
        meta := ParseVideoMetadata(metadata.value, meta);
      } else {
        return;
      }
      var governor := a.first.value;
      if meta.state == 1 {
        if governor == Ondemand || governor == Interactive {
          tracker.PerformHintAction(meta.hintId, a.handle, a.hintOk, a.nodeOk);
        }
      } else if meta.state == 0 {
        if governor == Ondemand || governor == Interactive {
          tracker.UndoHintAction(meta.hintId);
        }
      }
    }

    /** process_video_decode_hint of power.c: a stop under ondemand does nothing. */
    method ProcessVideoDecodeHint(metadata: Option<string>, a: Answers)
      requires Valid() && ValidAnswers(a)
      requires metadata.Some? ==> IsInt(VideoMeta(true, metadata.value).hintId)
      modifies tracker, tracker.head, set n | n in tracker.nodes
      ensures Valid() && Value() == VideoHint(tracker.lib, old(Value()), true, metadata, a)
      ensures forall n :: n in tracker.nodes ==> n in old(tracker.nodes) || fresh(n)
    {
      if a.first.None? {
        return;
      }
      var meta := VideoMetadata(VIDEO_DECODE_ID, -1);
      if metadata.Some? {
        meta := ParseVideoMetadata(metadata.value, meta);
      } else {
        return;
      }
      var governor := a.first.value;
      if meta.state == 1 {
        if governor == Ondemand || governor == Interactive {
          tracker.PerformHintAction(meta.hintId, a.handle, a.hintOk, a.nodeOk);
        }
      } else if meta.state == 0 {
        if governor == Interactive {
          tracker.UndoHintAction(meta.hintId);
        }
      }
    }
  }

  function SlackOf(saved: seq<int>, sysfs: seq<int>): seq<Slack>
    requires |saved| == |sysfs|
  {
    seq(|saved|, i requires 0 <= i < |saved| => Slack(saved[i], sysfs[i]))
  }
}
