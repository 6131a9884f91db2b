/** list.c, hint-data.c and the lock tracking of utils.c on the heap. */
module HintList {
  import opened PerfLocks

  /** struct hint_data; its fields are written once, before it is linked. */
  class HintData {
    const hintId: nat
    const handle: nat

    constructor (hintId: nat, handle: nat)
      ensures this.hintId == hintId && this.handle == handle
    {
      this.hintId, this.handle := hintId, handle;
    }
  }

  /** hint_compare: zero for the same object or the same id, one otherwise. */
  function HintCompare(first: HintData?, other: HintData?): (r: int)
    ensures r == 0 <==> first == other || (first != null && other != null && first.hintId == other.hintId)
    ensures r == 0 || r == 1
  {
    if first == other then 0
    else if first != null && other != null && first.hintId == other.hintId then 0
    else 1
  }

  /** A node's comparison function: none, or hint_compare. */
  datatype Compare = NoCompare | ById

  class ListNode {
    var next: ListNode?
    const data: HintData?
    var compare: Compare

    constructor (data: HintData?)
      ensures this.data == data && next == null && compare == NoCompare
    {
      this.data, next, compare := data, null, NoCompare;
    }
  }

  function NodeAt(nodes: seq<ListNode>, i: nat): ListNode? {
    if i < |nodes| then nodes[i] else null
  }

  /** The nodes behind the head, in order and without repetition. */
  ghost predicate Linked(head: ListNode, nodes: seq<ListNode>)
    reads head`next, nodes`next
  {
    && head.next == NodeAt(nodes, 0)
    && (forall i {:trigger nodes[i].next} :: 0 <= i < |nodes| ==> nodes[i].next == NodeAt(nodes, i + 1))
    && (forall i, j :: 0 <= i < j < |nodes| ==> nodes[i] != nodes[j])
    && head !in nodes
  }

  predicate HaveData(nodes: seq<ListNode>) {
    forall i :: 0 <= i < |nodes| ==> nodes[i].data != null
  }

  function HintsOf(nodes: seq<ListNode>): (s: seq<Hint>)
    requires HaveData(nodes)
    ensures |s| == |nodes|
  {
    seq(|nodes|, i requires 0 <= i < |nodes| => Hint(nodes[i].data.hintId, nodes[i].data.handle))
  }

  /** The listed hints that compare equal to a search key. */
  function Matching(nodes: seq<ListNode>, wanted: HintData): seq<Hint>
    requires HaveData(nodes)
  {
    if nodes == [] then []
    else
      var rest := Matching(nodes[1..], wanted);
      var data := nodes[0].data;
      if HintCompare(data, wanted) == 0 then [Hint(data.hintId, data.handle)] + rest else rest
  }

  /** A key that was made for one search matches exactly the locks held under its id, newest first. */
  lemma {:induction false} MatchesAreOfOneId(nodes: seq<ListNode>, wanted: HintData)
    requires HaveData(nodes)
    ensures Matching(nodes, wanted) == OfId(HintsOf(nodes), wanted.hintId)
  {
    if nodes != [] {
      MatchesAreOfOneId(nodes[1..], wanted);
      assert HintsOf(nodes)[1..] == HintsOf(nodes[1..]);
    }
  }

  /** Two keys match the same listed hints when they compare equal, and no common one otherwise. */
  lemma {:induction false} KeysSeparate(nodes: seq<ListNode>, one: HintData, other: HintData)
    requires HaveData(nodes)
    ensures HintCompare(one, other) == 0 ==> Matching(nodes, one) == Matching(nodes, other)
    ensures HintCompare(one, other) != 0 ==> forall h :: !(h in Matching(nodes, one) && h in Matching(nodes, other))
  {
    MatchesHaveTheKey(nodes, one);
    MatchesHaveTheKey(nodes, other);
    if nodes != [] {
      KeysSeparate(nodes[1..], one, other);
    }
  }

  lemma {:induction false} MatchesHaveTheKey(nodes: seq<ListNode>, wanted: HintData)
    requires HaveData(nodes)
    ensures forall h :: h in Matching(nodes, wanted) ==> h.id == wanted.hintId
  {
    if nodes != [] {
      MatchesHaveTheKey(nodes[1..], wanted);
    }
  }

  ghost predicate AllById(nodes: seq<ListNode>)
    reads nodes`compare
  {
    forall i :: 0 <= i < |nodes| ==> nodes[i].compare == ById
  }

  /** add_list_node: the new node goes first and inherits the head's comparison; `ok` is malloc's success. */
  method AddListNode(head: ListNode?, data: HintData?, ok: bool, ghost nodes: seq<ListNode>)
    returns (node: ListNode?)
    requires head != null ==> Linked(head, nodes)
    modifies if head == null then {} else {head}
    ensures node == null <==> head == null || !ok
    ensures node == null && head != null ==> head.next == old(head.next) && head.compare == old(head.compare)
    ensures node != null ==> fresh(node) && node.data == data && Linked(head, [node] + nodes)
                             && node.compare == head.compare == old(head.compare)
  {
    if head == null {
      return null;
    }
    if !ok {
      return null;
    }
    node := new ListNode(data);
    node.next := head.next;
    node.compare := head.compare;
    head.next := node;
  }

  /** find_node: the first node whose data compares equal, or NULL. */
  method FindNode(head: ListNode, wanted: HintData, ghost nodes: seq<ListNode>)
    returns (node: ListNode?, ghost k: nat)
    requires Linked(head, nodes) && HaveData(nodes) && AllById(nodes)
    ensures k == IndexOfId(HintsOf(nodes), wanted.hintId)
    ensures node == NodeAt(nodes, IndexOfId(HintsOf(nodes), wanted.hintId))
  {
    var current := head.next;
    k := 0;
    while current != null
      invariant k <= |nodes| && current == NodeAt(nodes, k)
      invariant forall i :: 0 <= i < k ==> nodes[i].data.hintId != wanted.hintId
      decreases |nodes| - k
    {
      if current.compare == ById {
        if HintCompare(current.data, wanted) == 0 {
          FirstWithId(HintsOf(nodes), wanted.hintId, k);
          return current, k;
        }
      }
      current := current.next;
      k := k + 1;
    }
    FirstWithId(HintsOf(nodes), wanted.hintId, k);
    return null, k;
  }

  lemma FirstWithId(active: seq<Hint>, id: nat, k: nat)
    requires k <= |active| && (k < |active| ==> active[k].id == id)
    requires forall i :: 0 <= i < k ==> active[i].id != id
    ensures IndexOfId(active, id) == k
  {
  }

  /** remove_list_node: unlink a node; -1 when the list is empty or does not have it. */
  method RemoveListNode(head: ListNode?, del: ListNode?, ghost nodes: seq<ListNode>, ghost k: nat)
    returns (rc: int)
    requires head != null ==> Linked(head, nodes)
    requires if k < |nodes| then del == nodes[k] else k == |nodes| && del !in nodes
    modifies if head == null then {} else {head}, set n | n in nodes
    ensures rc == if head != null && k < |nodes| then 0 else -1
    ensures head != null && k < |nodes| ==> Linked(head, nodes[..k] + nodes[k + 1..])
    ensures head != null && k == |nodes| ==> Linked(head, nodes)
    ensures head != null ==> head.compare == old(head.compare)
    ensures forall n :: n in nodes ==> n.compare == old(n.compare)
  {
    if head == null || head.next == null {
      return -1;
    }
    var current := head.next;
    var saved := head;
    ghost var i := 0;
    while current != null && current != del
      invariant i <= k && i <= |nodes| && current == NodeAt(nodes, i)
      invariant saved == if i == 0 then head else nodes[i - 1]
      decreases |nodes| - i
    {
      saved := current;
      current := current.next;
      i := i + 1;
    }
    if current == null {
      return -1;
    }
    assert i == k;
    saved.next := current.next;
    return 0;
  }

  /** The globals of utils.c, and the handles that went to and came from the library. */
  class HintTracker {
    const lib: Library
    const head: ListNode
    var acquired: seq<nat>
    var released: seq<nat>
    var initialReleases: nat
    ghost var nodes: seq<ListNode>

    /** Every reachable node carries hint_compare, so none is overlooked by a search. */
    ghost predicate Valid()
      reads this, head, set n | n in nodes
    {
      && Linked(head, nodes) && HaveData(nodes) && AllById(nodes)
      && (nodes != [] ==> head.compare == ById)
    }

    ghost function Value(): Locks
      requires HaveData(nodes)
      reads this
    {
      Locks(HintsOf(nodes), acquired, released)
    }

    constructor (lib: Library)
      ensures Valid() && this.lib == lib && Value() == NO_LOCKS && initialReleases == 0 && nodes == []
      ensures fresh(head)
    {
      this.lib := lib;
      head := new ListNode(null);
      acquired, released, initialReleases, nodes := [], [], 0, [];
    }

    /** perform_hint_action */
    method PerformHintAction(hintId: int, handle: int, hintOk: bool, nodeOk: bool)
      requires Valid() && IsInt(hintId) && IsInt(handle)
      modifies this, head
      ensures Valid() && initialReleases == old(initialReleases)
      ensures Value() == Perform(lib, old(Value()), hintId, handle, hintOk && nodeOk)
      ensures forall n :: n in nodes ==> n in old(nodes) || fresh(n)
    {
      hide ULong;
      hide Linked;
      if lib.loaded {
        if lib.acquire {
          if handle == -1 {
            return;
          }
          acquired := acquired + [ULong(handle)];
          if hintOk {
            if head.compare == NoCompare {
              head.compare := ById;
            }
            var newHint := new HintData(ULong(hintId), ULong(handle));
            var node := AddListNode(head, newHint, nodeOk, nodes);
            if node == null {
              if lib.release {
                released := released + [ULong(handle)];
              }
            } else {
              nodes := [node] + nodes;
              assert HintsOf(nodes) == [Hint(ULong(hintId), ULong(handle))] + HintsOf(old(nodes));
            }
          } else {
            if lib.release {
              released := released + [ULong(handle)];
            }
          }
        }
      }
    }

    /** undo_hint_action */
    method UndoHintAction(hintId: int)
      requires Valid() && IsInt(hintId)
      modifies this, head, set n | n in nodes
      ensures Valid() && initialReleases == old(initialReleases)
      ensures Value() == Undo(lib, old(Value()), hintId)
      ensures forall n :: n in nodes ==> n in old(nodes)
    {
      hide Linked;
      hide IndexOfId;
      hide Without;
      if lib.loaded {
        if lib.release {
          var temp := new HintData(ULong(hintId), 0);
          var found, k := FindNode(head, temp, nodes);
          if found != null {
            var data := found.data;
            released := released + [data.handle];
            var rc := RemoveListNode(head, found, nodes, k);
            RemovedHints(nodes, k);
            nodes := nodes[..k] + nodes[k + 1..];
          }
        }
      }
    }

    /** undo_initial_hint_action: releases handle 1, which this code never acquired. */
    method UndoInitialHintAction()
      requires Valid()
      modifies this
      ensures Valid() && Value() == old(Value()) && nodes == old(nodes)
      ensures initialReleases == old(initialReleases) + if lib.loaded && lib.release then 1 else 0
    {
      if lib.loaded {
        if lib.release {
          initialReleases := initialReleases + 1;
        }
      }
    }
  }

  lemma RemovedHints(nodes: seq<ListNode>, k: nat)
    requires HaveData(nodes) && k < |nodes|
    ensures HaveData(nodes[..k] + nodes[k + 1..])
    ensures HintsOf(nodes[..k] + nodes[k + 1..]) == Without(HintsOf(nodes), k)
  {
  }
}
