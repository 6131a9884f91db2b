/** The tracking of held perf-locks as a function on values, and what it keeps over whole runs. */
module PerfLocks {
  /** One tracked lock: the key under which it is held, and its handle. */
  datatype Hint = Hint(id: nat, handle: nat)

  /** The tracked locks, newest first, and all handles ever acquired and released. */
  datatype Locks = Locks(active: seq<Hint>, acquired: seq<nat>, released: seq<nat>)

  /** Which library entry points were found at load time. */
  datatype Library = Library(loaded: bool, acquire: bool, release: bool)

  const NO_LOCKS := Locks([], [], [])

  const ULONG: int := 0x1_0000_0000_0000_0000

  /** C's conversion of an int to unsigned long. */
  function ULong(i: int): (n: nat)
    requires -ULONG <= i < ULONG
    ensures 0 <= n < 0x1_0000_0000_0000_0000 && (n - i) % 0x1_0000_0000_0000_0000 == 0
  {
    if i >= 0 then i else i + ULONG
  }

  predicate IsInt(i: int) {
    -0x8000_0000 <= i < 0x8000_0000
  }

  lemma ULongIsInjective(i: int, j: int)
    requires IsInt(i) && IsInt(j) && i != j
    ensures ULong(i) != ULong(j)
  {
  }

  /**
   * perform_hint_action, given what the outside answers: the handle that perf_lock_acq returns (-1 on failure)
   * and whether both allocations succeed.
   */
  function Perform(lib: Library, s: Locks, id: int, handle: int, tracked: bool): Locks
    requires IsInt(id) && IsInt(handle)
  {
    if !lib.loaded || !lib.acquire || handle == -1 then s
    else
      var s1 := s.(acquired := s.acquired + [ULong(handle)]);
      if tracked then s1.(active := [Hint(ULong(id), ULong(handle))] + s.active)
      else if lib.release then s1.(released := s.released + [ULong(handle)])
      else s1
  }

  /**
   * A handle is acquired exactly when the library can and answers other than -1; then it is held in front of all
   * others under its id, or given back at once when there is no memory, or lost when it cannot be given back.
   */
  lemma PerformOutcome(lib: Library, s: Locks, id: int, handle: int, tracked: bool)
    requires IsInt(id) && IsInt(handle)
    ensures var t, n := Perform(lib, s, id, handle, tracked), ULong(handle);
            var got := lib.loaded && lib.acquire && handle != -1;
            && t.acquired == s.acquired + (if got then [n] else [])
            && t.active == (if got && tracked then [Hint(ULong(id), n)] else []) + s.active
            && t.released == s.released + (if got && !tracked && lib.release then [n] else [])
            && (!got ==> t == s)
  {
    hide ULong;
  }

  function IndexOfId(active: seq<Hint>, id: nat): (k: nat)
    ensures k <= |active|
    ensures k < |active| ==> active[k].id == id
    ensures forall i :: 0 <= i < k ==> active[i].id != id
  {
    if active == [] || active[0].id == id then 0 else 1 + IndexOfId(active[1..], id)
  }

  function Without(active: seq<Hint>, k: nat): seq<Hint>
    requires k < |active|
  {
    active[..k] + active[k + 1..]
  }

  /** undo_hint_action: release and drop the newest lock with this id. */
  function Undo(lib: Library, s: Locks, id: int): Locks
    requires IsInt(id)
  {
    var k := IndexOfId(s.active, ULong(id));
    if !lib.loaded || !lib.release || k == |s.active| then s
    else s.(active := Without(s.active, k), released := s.released + [s.active[k].handle])
  }

  // ----- runs

  datatype Op = PerformOp(id: int, handle: int, tracked: bool) | UndoOp(id: int)

  predicate ValidOp(op: Op) {
    IsInt(op.id) && (op.PerformOp? ==> IsInt(op.handle))
  }

  function Apply(lib: Library, s: Locks, op: Op): Locks
    requires ValidOp(op)
  {
    match op
    case PerformOp(id, handle, tracked) => Perform(lib, s, id, handle, tracked)
    case UndoOp(id) => Undo(lib, s, id)
  }

  predicate ValidOps(ops: seq<Op>) {
    forall i :: 0 <= i < |ops| ==> ValidOp(ops[i])
  }

  function Run(lib: Library, s: Locks, ops: seq<Op>): Locks
    requires ValidOps(ops)
  {
    if ops == [] then s else Apply(lib, Run(lib, s, ops[..|ops| - 1]), ops[|ops| - 1])
  }

  function Handles(active: seq<Hint>): seq<nat> {
    if active == [] then [] else [active[0].handle] + Handles(active[1..])
  }

  lemma {:induction false} HandlesWithout(active: seq<Hint>, k: nat)
    requires k < |active|
    ensures multiset(Handles(active)) == multiset(Handles(Without(active, k))) + multiset{active[k].handle}
  {
    var rest := active[1..];
    if k == 0 {
      assert Without(active, 0) == rest;
    } else {
      HandlesWithout(rest, k - 1);
      assert Without(active, k) == [active[0]] + Without(rest, k - 1);
      HandlesCons(active[0], Without(rest, k - 1));
    }
  }

  lemma HandlesCons(h: Hint, active: seq<Hint>)
    ensures Handles([h] + active) == [h.handle] + Handles(active)
  {
    assert ([h] + active)[1..] == active;
  }

  /** Every acquired handle is held exactly as often as it has not been released. */
  ghost predicate Balanced(s: Locks) {
    multiset(s.acquired) == multiset(Handles(s.active)) + multiset(s.released)
  }

  /** The handle that an operation acquires but can neither track nor release. */
  predicate Leaks(lib: Library, op: Op) {
    op.PerformOp? && lib.loaded && lib.acquire && op.handle != -1 && !op.tracked && !lib.release
  }

  function Leaked(lib: Library, ops: seq<Op>): seq<nat>
    requires ValidOps(ops)
  {
    if ops == [] then []
    else
      var op := ops[|ops| - 1];
      Leaked(lib, ops[..|ops| - 1]) + LeakedBy(lib, op)
  }

  ghost predicate Conserved(s: Locks, leaked: seq<nat>) {
    multiset(s.acquired) == multiset(Handles(s.active)) + multiset(s.released) + multiset(leaked)
  }

  function LeakedBy(lib: Library, op: Op): seq<nat>
    requires ValidOp(op)
  {
    if Leaks(lib, op) then [ULong(op.handle)] else []
  }

  lemma StepConserves(lib: Library, s: Locks, op: Op, leaked: seq<nat>)
    requires ValidOp(op) && Conserved(s, leaked)
    ensures Conserved(Apply(lib, s, op), leaked + LeakedBy(lib, op))
  {
    hide Handles;
    hide Without;
    hide ULong;
    match op {
      case PerformOp(id, handle, tracked) =>
        HandlesCons(Hint(ULong(id), ULong(handle)), s.active);
      case UndoOp(id) =>
        var k := IndexOfId(s.active, ULong(id));
        if k < |s.active| {
          HandlesWithout(s.active, k);
        }
    }
  }

  /** Conservation of handles over any run: acquired is held, released or leaked, with multiplicities. */
  lemma {:induction false} HandlesAreConserved(lib: Library, ops: seq<Op>)
    requires ValidOps(ops)
    ensures Conserved(Run(lib, NO_LOCKS, ops), Leaked(lib, ops))
  {
    if ops != [] {
      var front := ops[..|ops| - 1];
      HandlesAreConserved(lib, front);
      StepConserves(lib, Run(lib, NO_LOCKS, front), ops[|ops| - 1], Leaked(lib, front));
      hide Conserved;
    }
  }

  /** A run keeps its books exactly when no operation of it leaks; with both entry points none ever does. */
  lemma {:induction false} BalancedIffNothingLeaks(lib: Library, ops: seq<Op>)
    requires ValidOps(ops)
    ensures Balanced(Run(lib, NO_LOCKS, ops)) <==> forall i :: 0 <= i < |ops| ==> !Leaks(lib, ops[i])
    ensures lib.release ==> Balanced(Run(lib, NO_LOCKS, ops))
  {
    HandlesAreConserved(lib, ops);
    LeakedIsEmpty(lib, ops);
    var s := Run(lib, NO_LOCKS, ops);
    if Balanced(s) {
      NothingAdded(multiset(Handles(s.active)) + multiset(s.released), Leaked(lib, ops));
    }
  }

  lemma NothingAdded(m: multiset<nat>, xs: seq<nat>)
    requires m + multiset(xs) == m
    ensures xs == []
  {
    assert |m + multiset(xs)| == |m| + |multiset(xs)|;
  }

  lemma {:induction false} LeakedIsEmpty(lib: Library, ops: seq<Op>)
    requires ValidOps(ops)
    ensures Leaked(lib, ops) == [] <==> forall i :: 0 <= i < |ops| ==> !Leaks(lib, ops[i])
  {
    if ops != [] {
      LeakedIsEmpty(lib, ops[..|ops| - 1]);
    }
  }

  /** With fresh handles and both entry points, each acquired handle is held once or was released once. */
  lemma EachHandleOnce(lib: Library, ops: seq<Op>, h: nat)
    requires ValidOps(ops) && lib.release
    requires var s := Run(lib, NO_LOCKS, ops); multiset(s.acquired)[h] == 1
    ensures var s := Run(lib, NO_LOCKS, ops);
            multiset(Handles(s.active))[h] + multiset(s.released)[h] == 1
  {
    BalancedIffNothingLeaks(lib, ops);
  }

  // ----- last in, first out, per id

  function OfId(active: seq<Hint>, id: nat): seq<Hint> {
    if active == [] then []
    else if active[0].id == id then [active[0]] + OfId(active[1..], id)
    else OfId(active[1..], id)
  }

  lemma {:induction false} OfIdWithout(active: seq<Hint>, k: nat, id: nat)
    requires k < |active| && k == IndexOfId(active, active[k].id)
    ensures OfId(active, active[k].id) != [] && OfId(active, active[k].id)[0] == active[k]
    ensures OfId(Without(active, k), id) ==
            if id == active[k].id then OfId(active, id)[1..] else OfId(active, id)
  {
    if k == 0 {
      assert Without(active, 0) == active[1..];
    } else {
      assert Without(active, k) == [active[0]] + Without(active[1..], k - 1);
      assert Without(active, k)[1..] == Without(active[1..], k - 1);
      OfIdWithout(active[1..], k - 1, id);
    }
  }

  lemma {:induction false} OfIdEmpty(active: seq<Hint>, id: nat)
    ensures OfId(active, id) == [] <==> IndexOfId(active, id) == |active|
  {
    if active != [] {
      OfIdEmpty(active[1..], id);
    }
  }

  /** Undo pops the stack of its own id, releases what it pops, and leaves every other stack alone. */
  lemma UndoPops(lib: Library, s: Locks, id: int, other: nat)
    requires IsInt(id) && lib.loaded && lib.release
    ensures var mine, t := OfId(s.active, ULong(id)), Undo(lib, s, id);
            && (other != ULong(id) ==> OfId(t.active, other) == OfId(s.active, other))
            && (mine == [] ==> t == s)
            && (mine != [] ==> OfId(t.active, ULong(id)) == mine[1..] && t.released == s.released + [mine[0].handle])
  {
    var k := IndexOfId(s.active, ULong(id));
    OfIdEmpty(s.active, ULong(id));
    if k < |s.active| {
      OfIdWithout(s.active, k, ULong(id));
      OfIdWithout(s.active, k, other);
    }
  }

  /** The operations that concern one id. */
  function OpsOf(ops: seq<Op>, id: int): seq<Op> {
    if ops == [] then []
    else OpsOf(ops[..|ops| - 1], id) + if ops[|ops| - 1].id == id then [ops[|ops| - 1]] else []
  }

  lemma {:induction false} OpsOfValid(ops: seq<Op>, id: int)
    requires ValidOps(ops)
    ensures ValidOps(OpsOf(ops, id))
    ensures forall i :: 0 <= i < |OpsOf(ops, id)| ==> OpsOf(ops, id)[i].id == id
  {
    if ops != [] {
      OpsOfValid(ops[..|ops| - 1], id);
    }
  }

  lemma {:induction false} OnlyOwnId(lib: Library, ops: seq<Op>, id: int)
    requires IsInt(id) && ValidOps(ops) && forall i :: 0 <= i < |ops| ==> ops[i].id == id
    ensures OfId(Run(lib, NO_LOCKS, ops).active, ULong(id)) == Run(lib, NO_LOCKS, ops).active
  {
    if ops != [] {
      var front, op := ops[..|ops| - 1], ops[|ops| - 1];
      OnlyOwnId(lib, front, id);
      var s := Run(lib, NO_LOCKS, front);
      if op.UndoOp? {
        if lib.loaded && lib.release {
          var k := IndexOfId(s.active, ULong(id));
          OfIdEmpty(s.active, ULong(id));
          if s.active != [] {
            OfIdWithout(s.active, k, ULong(id));
            assert k == 0;
          }
        }
      } else {
        var h := Hint(ULong(id), ULong(op.handle));
        assert ([h] + s.active)[1..] == s.active;
      }
    }
  }

  /** Ids do not interfere: the locks held under one id are those that its own operations alone would leave. */
  lemma {:induction false} IdsAreIndependent(lib: Library, ops: seq<Op>, id: int)
    requires IsInt(id) && ValidOps(ops)
    ensures ValidOps(OpsOf(ops, id))
    ensures OfId(Run(lib, NO_LOCKS, ops).active, ULong(id)) == Run(lib, NO_LOCKS, OpsOf(ops, id)).active
  {
    OpsOfValid(ops, id);
    if ops != [] {
      var front, op := ops[..|ops| - 1], ops[|ops| - 1];
      IdsAreIndependent(lib, front, id);
      OpsOfValid(front, id);
      var s, own := Run(lib, NO_LOCKS, front), Run(lib, NO_LOCKS, OpsOf(front, id));
      OnlyOwnId(lib, OpsOf(front, id), id);
      if op.id == id {
        assert OpsOf(ops, id)[..|OpsOf(ops, id)| - 1] == OpsOf(front, id);
        SameStep(lib, s, own, op);
      } else {
        assert OpsOf(ops, id) == OpsOf(front, id);
        OtherStep(lib, s, op, id);
      }
    }
  }

  lemma OtherStep(lib: Library, s: Locks, op: Op, id: int)
    requires ValidOp(op) && IsInt(id) && op.id != id
    ensures OfId(Apply(lib, s, op).active, ULong(id)) == OfId(s.active, ULong(id))
  {
    ULongIsInjective(op.id, id);
    match op
    case PerformOp(other, handle, tracked) =>
      assert ([Hint(ULong(other), ULong(handle))] + s.active)[1..] == s.active;
    case UndoOp(other) =>
      if lib.loaded && lib.release {
        UndoPops(lib, s, other, ULong(id));
      }
  }

  lemma SameStep(lib: Library, s: Locks, own: Locks, op: Op)
    requires ValidOp(op) && OfId(s.active, ULong(op.id)) == own.active
    requires OfId(own.active, ULong(op.id)) == own.active
    ensures OfId(Apply(lib, s, op).active, ULong(op.id)) == Apply(lib, own, op).active
  {
    match op
    case PerformOp(id, handle, tracked) =>
      assert ([Hint(ULong(id), ULong(handle))] + s.active)[1..] == s.active;
    case UndoOp(id) =>
      if lib.loaded && lib.release {
        UndoPops(lib, s, id, ULong(id));
        OfIdEmpty(own.active, ULong(id));
        if own.active != [] {
          assert own.active[0].id == ULong(id) by {
            OfIdWithout(own.active, IndexOfId(own.active, ULong(id)), ULong(id));
          }
          assert Without(own.active, 0) == own.active[1..];
        }
      }
  }
}
