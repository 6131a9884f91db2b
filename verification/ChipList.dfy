/** `chip_list`: a doubly linked list of heap nodes that `chip_add` keeps sorted and free of duplicates. */
module ChipList {
  import opened ChipIds

  /** struct chipInfo_t. The id and the master never change once a node is made. */
  class Chip {
    const id: ChipId
    const master: Chip
    var dtbSize: nat
    var dtbFile: string
    var prev: Chip?
    var next: Chip?
    var tNext: Chip?
    var wroteDtb: bool
    var masterOffset: nat

    constructor Head(id: ChipId)
      ensures this.id == id && master == this && tNext == null
      ensures dtbSize == 0 && !wroteDtb && masterOffset == 0
    {
      this.id, master := id, this;
      dtbSize, dtbFile, wroteDtb, masterOffset := 0, "", false, 0;
      prev, next, tNext := null, null, null;
    }

    constructor Member(id: ChipId, head: Chip)
      ensures this.id == id && master == head && tNext == null
      ensures dtbSize == 0 && !wroteDtb && masterOffset == 0
    {
      this.id, master := id, head;
      dtbSize, dtbFile, wroteDtb, masterOffset := 0, "", false, 0;
      prev, next, tNext := null, null, null;
    }
  }

  function SlotOf(c: Chip): Slot {
    Slot(c.id, c.master.id)
  }

  function SlotsOf(nodes: seq<Chip>): (s: seq<Slot>)
    ensures |s| == |nodes|
    ensures forall i :: 0 <= i < |s| ==> s[i] == SlotOf(nodes[i])
  {
    seq(|nodes|, i requires 0 <= i < |nodes| => SlotOf(nodes[i]))
  }

  /** Each node points at its neighbours, and the ends point nowhere. */
  ghost predicate Linked(nodes: seq<Chip>, head: Chip?)
    reads nodes`next, nodes`prev
  {
    && (|nodes| == 0 <==> head == null)
    && (|nodes| > 0 ==> head == nodes[0] && nodes[0].prev == null && nodes[|nodes| - 1].next == null)
    && (forall i {:trigger nodes[i].next} :: 0 <= i < |nodes| - 1 ==> nodes[i].next == nodes[i + 1])
    && (forall i {:trigger nodes[i].prev} :: 1 <= i < |nodes| ==> nodes[i].prev == nodes[i - 1])
  }

  /** Following `next` from node i leads to node i + 1, and to the end after the last one. */
  lemma LinkedAt(nodes: seq<Chip>, head: Chip?, i: nat)
    requires Linked(nodes, head) && i < |nodes|
    ensures nodes[i].next == if i + 1 < |nodes| then nodes[i + 1] else null
  {
  }

  ghost predicate Distinct(nodes: seq<Chip>) {
    forall i, j :: 0 <= i < j < |nodes| ==> nodes[i] != nodes[j]
  }

  function Elems(nodes: seq<Chip>): set<Chip> {
    set n | n in nodes
  }

  class List {
    var head: Chip?
    ghost var nodes: seq<Chip>
    ghost var repr: set<Chip>

    ghost predicate Valid()
      reads this, nodes`next, nodes`prev
    {
      && repr == Elems(nodes) && Linked(nodes, head) && Distinct(nodes)
      && Sorted(SlotsOf(nodes)) && UniqueIds(SlotsOf(nodes))
    }

    constructor ()
      ensures Valid() && nodes == []
    {
      head, nodes, repr := null, [], {};
    }

    /** The two relinkings of chip_add that put a node in front of another. */
    method LinkBefore(c: Chip, x: Chip, ghost r: nat)
      requires repr == Elems(nodes) && Linked(nodes, head) && Distinct(nodes)
      requires c !in repr && r < |nodes| && x == nodes[r]
      modifies this, c`next, c`prev, repr`next, repr`prev
      ensures Linked(nodes, head) && Distinct(nodes)
      ensures nodes == old(nodes)[..r] + [c] + old(nodes)[r..] && repr == old(repr)
    {
      if x.prev == null {
        assert r == 0;
        c.next, c.prev, x.prev, head := x, null, c, c;
      } else {
        assert x.prev == nodes[r - 1];
        c.next, c.prev := x, x.prev;
        x.prev.next := c;
        x.prev := c;
      }
      nodes := nodes[..r] + [c] + nodes[r..];
    }

    /** The assignments of chip_add that start an empty list. */
    method LinkFirst(c: Chip)
      requires Linked(nodes, head) && head == null
      modifies this, c`next, c`prev
      ensures Linked(nodes, head) && Distinct(nodes)
      ensures nodes == [c] && old(nodes) == [] && repr == old(repr)
    {
      head, c.next, c.prev := c, null, null;
      nodes := [c];
    }

    /** The relinking of chip_add at the end of the list. */
    method LinkLast(c: Chip, x: Chip)
      requires repr == Elems(nodes) && Linked(nodes, head) && Distinct(nodes)
      requires c !in repr && |nodes| > 0 && x == nodes[|nodes| - 1]
      modifies this, c`next, c`prev, repr`next, repr`prev
      ensures Linked(nodes, head) && Distinct(nodes)
      ensures nodes == old(nodes)[..|old(nodes)|] + [c] + old(nodes)[|old(nodes)|..] && repr == old(repr)
    {
      c.prev, c.next, x.next := x, null, c;
      nodes := nodes[..|nodes|] + [c] + nodes[|nodes|..];
    }

    /** The walk of chip_add: it stops at a node the id precedes, at a node with this id, or at the end. */
    method Walk(id: ChipId) returns (x: Chip, stop: Stop, ghost i: nat)
      requires Linked(nodes, head) && |nodes| > 0
      ensures i < |nodes| && x == nodes[i]
      ensures forall j :: 0 <= j < i ==> Passes(id, nodes[j].id)
      ensures stop == AtGreater ==> Before(id, x.id)
      ensures stop == AtDuplicate ==> id == x.id
      ensures stop == AtEnd ==> Passes(id, x.id) && i == |nodes| - 1
    {
      x, i := head, 0;
      while true
        invariant 0 <= i < |nodes| && x == nodes[i]
        invariant forall j :: 0 <= j < i ==> Passes(id, nodes[j].id)
        decreases |nodes| - i
      {
        if Before(id, x.id) {
          return x, AtGreater, i;
        }
        if id == x.id {
          return x, AtDuplicate, i;
        }
        if x.next == null {
          return x, AtEnd, i;
        }
        x := x.next;
        i := i + 1;
      }
    }

    /** chip_add: refuses a node exactly when its id is present, else links it in at its rank. */
    method Add(c: Chip) returns (ok: bool)
      requires Valid() && c !in repr
      modifies this, c`next, c`prev, repr`next, repr`prev
      ensures Valid() && repr == old(repr) + if ok then {c} else {}
      ensures ok <==> !HasId(SlotsOf(old(nodes)), c.id)
      ensures SlotsOf(nodes) == ChipIds.Add(SlotsOf(old(nodes)), SlotOf(c))
      ensures !ok ==> nodes == old(nodes)
      ensures forall i, j :: 0 <= i < j < |nodes| ==> FieldsInOrder(nodes[i].id, nodes[j].id)
      ensures ok ==> var r := Rank(SlotsOf(old(nodes)), c.id);
                     nodes == old(nodes)[..r] + [c] + old(nodes)[r..]
    {
      hide Sorted;
      hide UniqueIds;
      hide Insert;
      hide Rank;
      hide Before;
      hide Distinct;
      hide Linked;
      hide SlotsOf;
      hide SlotOf;
      hide Elems;
      hide HasId;
      hide ChipIds.Add;
      hide FieldsInOrder;
      ghost var was := nodes;
      EmptyIff(nodes, head);
      if head == null {
        FirstNode(c);
        LinkFirst(c);
        repr := {c};
        AllInFieldOrder(this);
        return true;
      }
      var x, stop, i := Walk(c.id);
      match stop {
        case AtDuplicate =>
          DuplicateFound(was, c, i);
          AllInFieldOrder(this);
          return false;
        case AtGreater =>
          PlaceFound(was, c, i);
          LinkBefore(c, x, i);
        case AtEnd =>
          PlaceFound(was, c, |was|);
          LinkLast(c, x);
      }
      repr := repr + {c};
      AllInFieldOrder(this);
      return true;
    }
  }

  /** The nodes from `head` on are ordered by the fields of their ids, and no two share all eight fields. */
  lemma ListInFieldOrder(list: List, i: nat, j: nat)
    requires list.Valid() && i < j < |list.nodes|
    ensures list.nodes[i].id != list.nodes[j].id && FieldsInOrder(list.nodes[i].id, list.nodes[j].id)
  {
    var s := SlotsOf(list.nodes);
    SortedByFields(s, i, j);
    assert s[i].id != s[j].id;
  }

  lemma AllInFieldOrder(list: List)
    requires list.Valid()
    ensures forall i, j :: 0 <= i < j < |list.nodes| ==> FieldsInOrder(list.nodes[i].id, list.nodes[j].id)
  {
    forall i: nat, j: nat | i < j < |list.nodes| ensures FieldsInOrder(list.nodes[i].id, list.nodes[j].id) {
      ListInFieldOrder(list, i, j);
    }
  }

  datatype Stop = AtGreater | AtDuplicate | AtEnd

  predicate Passes(id: ChipId, other: ChipId) {
    !Before(id, other) && id != other
  }

  lemma EmptyIff(nodes: seq<Chip>, head: Chip?)
    requires Linked(nodes, head)
    ensures (head == null <==> nodes == []) && SlotsOf([]) == []
  {
  }

  lemma FirstNode(c: Chip)
    ensures SlotsOf([c]) == ChipIds.Add([], SlotOf(c)) && Rank([], c.id) == 0 && !HasId([], c.id)
    ensures Sorted(SlotsOf([c])) && UniqueIds(SlotsOf([c])) && Elems([c]) == {c} && Elems([]) == {}
  {
  }

  lemma DuplicateFound(was: seq<Chip>, c: Chip, i: nat)
    requires i < |was| && was[i].id == c.id
    ensures HasId(SlotsOf(was), c.id) && ChipIds.Add(SlotsOf(was), SlotOf(c)) == SlotsOf(was)
  {
    assert SlotsOf(was)[i].id == c.id;
  }

  /** Where a walk ends without a duplicate, a sorted list has no such id and takes the node there. */
  lemma PlaceFound(was: seq<Chip>, c: Chip, i: nat)
    requires i <= |was| && Sorted(SlotsOf(was)) && UniqueIds(SlotsOf(was))
    requires forall j :: 0 <= j < i ==> Passes(c.id, was[j].id)
    requires i < |was| ==> Before(c.id, was[i].id)
    ensures !HasId(SlotsOf(was), c.id) && i == Rank(SlotsOf(was), c.id)
    ensures var t := SlotsOf(was[..i] + [c] + was[i..]);
            t == ChipIds.Add(SlotsOf(was), SlotOf(c)) && Sorted(t) && UniqueIds(t)
    ensures Elems(was[..i] + [c] + was[i..]) == Elems(was) + {c}
  {
    var s, x := SlotsOf(was), SlotOf(c);
    SlotsOfPlaced(was, c, i);
    assert forall j :: 0 <= j < i ==> Passes(c.id, s[j].id);
    assert i < |s| ==> Before(c.id, s[i].id);
    hide *;
    RankFound(s, x, i);
  }

  lemma SlotsOfPlaced(was: seq<Chip>, c: Chip, i: nat)
    requires i <= |was|
    ensures SlotsOf(was[..i] + [c] + was[i..]) == SlotsOf(was)[..i] + [SlotOf(c)] + SlotsOf(was)[i..]
    ensures Elems(was[..i] + [c] + was[i..]) == Elems(was) + {c} && SlotOf(c).id == c.id
  {
    assert was == was[..i] + was[i..];
  }

  lemma RankFound(s: seq<Slot>, x: Slot, i: nat)
    requires i <= |s| && Sorted(s) && UniqueIds(s)
    requires forall j :: 0 <= j < i ==> Passes(x.id, s[j].id)
    requires i < |s| ==> Before(x.id, s[i].id)
    ensures !HasId(s, x.id) && i == Rank(s, x.id)
    ensures var t := s[..i] + [x] + s[i..]; t == ChipIds.Add(s, x) && Sorted(t) && UniqueIds(t)
  {
    RankSplits(s, x.id);
    assert i == Rank(s, x.id);
    assert !HasId(s, x.id);
    InsertKeepsOrder(s, x);
  }
}
