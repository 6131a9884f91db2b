/** The ids of `chip_list`, the order in which `chip_add` keeps them, and what that order amounts to. */
module ChipIds {
  import opened Bytes

  datatype ChipId = ChipId(
    chipset: u32, platform: u32, subtype: u32, revNum: u32,
    pmic0: u32, pmic1: u32, pmic2: u32, pmic3: u32)

  /** The part of an id that decides its place in the list. */
  datatype Key = Key(chipset: u32, platform: u32, subtype: u32, revNum: u32)

  /** A list node as a value: its id, and the id of the node whose DTB file it shares. */
  datatype Slot = Slot(id: ChipId, master: ChipId)

  function KeyOf(c: ChipId): Key {
    Key(c.chipset, c.platform, c.subtype, c.revNum)
  }

  predicate KeyBefore(a: Key, b: Key) {
    || a.chipset < b.chipset
    || (a.chipset == b.chipset &&
        (|| a.platform < b.platform
         || (a.platform == b.platform &&
             (|| a.subtype < b.subtype
              || (a.subtype == b.subtype && a.revNum < b.revNum)))))
  }

  predicate Before(a: ChipId, b: ChipId) {
    KeyBefore(KeyOf(a), KeyOf(b))
  }

  /** The nested comparison of chip_add is the numeric order of chipset, platform, subtype and revision of the ids. */
  lemma OrderIsNumeric(a: ChipId, b: ChipId)
    ensures var x := ((a.chipset * U32_LIMIT + a.platform) * U32_LIMIT + a.subtype) * U32_LIMIT + a.revNum;
            var y := ((b.chipset * U32_LIMIT + b.platform) * U32_LIMIT + b.subtype) * U32_LIMIT + b.revNum;
            && (Before(a, b) <==> x < y)
            && (x == y <==> a.chipset == b.chipset && a.platform == b.platform
                            && a.subtype == b.subtype && a.revNum == b.revNum)
  {
    var x, y := a.chipset * U32_LIMIT + a.platform, b.chipset * U32_LIMIT + b.platform;
    assert x < y <==> a.chipset < b.chipset || (a.chipset == b.chipset && a.platform < b.platform);
    assert x == y <==> a.chipset == b.chipset && a.platform == b.platform;
    var x', y' := x * U32_LIMIT + a.subtype, y * U32_LIMIT + b.subtype;
    assert x' < y' <==> x < y || (x == y && a.subtype < b.subtype);
    assert x' == y' <==> x == y && a.subtype == b.subtype;
  }

  predicate Sorted(s: seq<Slot>) {
    forall i, j :: 0 <= i < j < |s| ==> !Before(s[j].id, s[i].id)
  }

  predicate UniqueIds(s: seq<Slot>) {
    forall i, j :: 0 <= i < j < |s| ==> s[i].id != s[j].id
  }

  predicate HasId(s: seq<Slot>, id: ChipId) {
    exists i :: 0 <= i < |s| && s[i].id == id
  }

  /** How many leading nodes a new id has to pass before it meets one that it precedes. */
  function Rank(s: seq<Slot>, id: ChipId): (r: nat)
    ensures r <= |s|
    ensures forall i :: 0 <= i < r ==> !Before(id, s[i].id)
    ensures r < |s| ==> Before(id, s[r].id)
  {
    if s == [] || Before(id, s[0].id) then 0 else 1 + Rank(s[1..], id)
  }

  function Insert(s: seq<Slot>, x: Slot): seq<Slot> {
    s[..Rank(s, x.id)] + [x] + s[Rank(s, x.id)..]
  }

  function Add(s: seq<Slot>, x: Slot): seq<Slot> {
    if HasId(s, x.id) then s else Insert(s, x)
  }

  function AddAll(s: seq<Slot>, xs: seq<Slot>): seq<Slot> {
    if xs == [] then s else Add(AddAll(s, xs[..|xs| - 1]), xs[|xs| - 1])
  }

  /** The offered slots that were the first to bring their id. */
  function Accepted(xs: seq<Slot>): seq<Slot> {
    if xs == [] then []
    else
      var front := xs[..|xs| - 1];
      if HasId(front, xs[|xs| - 1].id) then Accepted(front) else Accepted(front) + [xs[|xs| - 1]]
  }

  /** The slots with a given sort key, in list order. */
  function OfKey(s: seq<Slot>, k: Key): seq<Slot> {
    if s == [] then []
    else if KeyOf(s[|s| - 1].id) == k then OfKey(s[..|s| - 1], k) + [s[|s| - 1]]
    else OfKey(s[..|s| - 1], k)
  }

  /** In a sorted list the rank splits the list into nodes not after, and nodes strictly after, the id. */
  lemma RankSplits(s: seq<Slot>, id: ChipId)
    requires Sorted(s)
    ensures forall i :: Rank(s, id) <= i < |s| ==> Before(id, s[i].id)
  {
    var r := Rank(s, id);
    forall i | r <= i < |s| ensures Before(id, s[i].id) {
      if i > r {
        assert !Before(s[i].id, s[r].id);
      }
    }
  }

  lemma InsertKeepsOrder(s: seq<Slot>, x: Slot)
    requires Sorted(s) && UniqueIds(s) && !HasId(s, x.id)
    ensures Sorted(Insert(s, x)) && UniqueIds(Insert(s, x))
  {
    RankSplits(s, x.id);
    var r, t := Rank(s, x.id), Insert(s, x);
    forall i, j | 0 <= i < j < |t| ensures !Before(t[j].id, t[i].id) && t[i].id != t[j].id {
      if i < r && j > r {
        assert t[i] == s[i] && t[j] == s[j - 1];
      } else if i > r {
        assert t[i] == s[i - 1] && t[j] == s[j - 1];
      }
    }
  }

  lemma {:induction false} OfKeyConcat(a: seq<Slot>, b: seq<Slot>, k: Key)
    ensures OfKey(a + b, k) == OfKey(a, k) + OfKey(b, k)
  {
    if b == [] {
      assert a + b == a;
    } else {
      assert (a + b)[..|a + b| - 1] == a + b[..|b| - 1];
      OfKeyConcat(a, b[..|b| - 1], k);
    }
  }

  lemma {:induction false} OfKeyNone(s: seq<Slot>, k: Key)
    requires forall i :: 0 <= i < |s| ==> KeyOf(s[i].id) != k
    ensures OfKey(s, k) == []
  {
    if s != [] {
      OfKeyNone(s[..|s| - 1], k);
    }
  }

  lemma NoneOfKeyAfterRank(s: seq<Slot>, id: ChipId)
    requires Sorted(s)
    ensures OfKey(s[Rank(s, id)..], KeyOf(id)) == []
  {
    var r := Rank(s, id);
    RankSplits(s, id);
    forall i | 0 <= i < |s[r..]| ensures KeyOf(s[r..][i].id) != KeyOf(id) {
      assert Before(id, s[r + i].id);
    }
    OfKeyNone(s[r..], KeyOf(id));
  }

  lemma OfKeyMoveLast(lo: seq<Slot>, x: Slot, hi: seq<Slot>, k: Key)
    requires OfKey([x], k) == [] || OfKey(hi, k) == []
    ensures OfKey(lo + [x] + hi, k) == OfKey(lo + hi, k) + OfKey([x], k)
  {
    OfKeyConcat(lo + [x], hi, k);
    OfKeyConcat(lo, [x], k);
    OfKeyConcat(lo, hi, k);
  }

  lemma InsertGoesLastOfItsKey(s: seq<Slot>, x: Slot, k: Key)
    requires Sorted(s)
    ensures OfKey(Insert(s, x), k) == OfKey(s, k) + OfKey([x], k)
  {
    var r := Rank(s, x.id);
    assert s == s[..r] + s[r..];
    if KeyOf(x.id) == k {
      NoneOfKeyAfterRank(s, x.id);
    } else {
      OfKeyNone([x], k);
    }
    OfKeyMoveLast(s[..r], x, s[r..], k);
  }

  lemma {:induction false} AcceptedHasSameIds(xs: seq<Slot>, id: ChipId)
    ensures HasId(Accepted(xs), id) <==> HasId(xs, id)
  {
    if xs != [] {
      var front, x := xs[..|xs| - 1], xs[|xs| - 1];
      AcceptedHasSameIds(front, id);
      assert xs == front + [x];
      if HasId(front, id) {
        var i :| 0 <= i < |front| && front[i].id == id;
        assert xs[i].id == id;
        var j :| 0 <= j < |Accepted(front)| && Accepted(front)[j].id == id;
        assert Accepted(xs)[j].id == id;
      } else if x.id == id {
        assert Accepted(xs)[|Accepted(xs)| - 1].id == id;
      }
    }
  }

  lemma InsertContents(s: seq<Slot>, x: Slot)
    ensures multiset(Insert(s, x)) == multiset(s) + multiset{x}
  {
    var r := Rank(s, x.id);
    assert s == s[..r] + s[r..];
  }

  lemma InsertIds(s: seq<Slot>, x: Slot, id: ChipId)
    ensures HasId(Insert(s, x), id) <==> HasId(s, id) || id == x.id
  {
    var r, t := Rank(s, x.id), Insert(s, x);
    assert t[r] == x;
    if HasId(s, id) {
      var i :| 0 <= i < |s| && s[i].id == id;
      assert t[if i < r then i else i + 1] == s[i];
    }
    if HasId(t, id) && id != x.id {
      var i :| 0 <= i < |t| && t[i].id == id;
      assert t[i] == s[if i < r then i else i - 1];
    }
  }

  lemma IdsSnoc(front: seq<Slot>, x: Slot, id: ChipId)
    ensures HasId(front + [x], id) <==> HasId(front, id) || id == x.id
  {
    if HasId(front, id) {
      var i :| 0 <= i < |front| && front[i].id == id;
      assert (front + [x])[i].id == id;
    }
    assert (front + [x])[|front|].id == x.id;
  }

  /** Adding any sequence of slots yields the stable sort of the accepted ones. */
  lemma {:induction false} AddAllIsStableSort(xs: seq<Slot>)
    ensures Sorted(AddAll([], xs)) && UniqueIds(AddAll([], xs))
    ensures forall id :: HasId(AddAll([], xs), id) <==> HasId(xs, id)
    ensures multiset(AddAll([], xs)) == multiset(Accepted(xs))
    ensures forall k :: OfKey(AddAll([], xs), k) == OfKey(Accepted(xs), k)
  {
    if xs != [] {
      var front, x := xs[..|xs| - 1], xs[|xs| - 1];
      var s := AddAll([], front);
      AddAllIsStableSort(front);
      assert xs == front + [x];
      forall id {
        IdsSnoc(front, x, id);
      }
      hide HasId;
      hide Insert;
      hide OfKey;
      hide Sorted;
      hide UniqueIds;
      if !HasId(front, x.id) {
        InsertKeepsOrder(s, x);
        InsertContents(s, x);
        forall id {
          InsertIds(s, x, id);
        }
        forall k ensures OfKey(AddAll([], xs), k) == OfKey(Accepted(xs), k) {
          InsertGoesLastOfItsKey(s, x, k);
          OfKeyConcat(Accepted(front), [x], k);
        }
      }
    }
  }

  /** An accepted slot is the first offer of its id, and every id ever offered keeps its first offer. */
  lemma {:induction false} AcceptedAreFirstOffers(xs: seq<Slot>, x: Slot)
    ensures x in Accepted(xs) <==>
            exists i :: 0 <= i < |xs| && xs[i] == x && !HasId(xs[..i], x.id)
  {
    if xs != [] {
      var front, last := xs[..|xs| - 1], xs[|xs| - 1];
      AcceptedAreFirstOffers(front, x);
      if x in Accepted(front) {
        var i :| 0 <= i < |front| && front[i] == x && !HasId(front[..i], x.id);
        assert xs[i] == x && xs[..i] == front[..i];
      }
      if exists i :: 0 <= i < |xs| && xs[i] == x && !HasId(xs[..i], x.id) {
        var i :| 0 <= i < |xs| && xs[i] == x && !HasId(xs[..i], x.id);
        if i < |front| {
          assert front[i] == x && front[..i] == xs[..i];
        } else {
          assert xs[..i] == front;
        }
      }
      if x == last && !HasId(front, last.id) {
        assert xs[|front|] == x && xs[..|front|] == front;
      }
    }
  }

  // ----- the same in terms of the fields of the ids

  /** The slots whose id has these four fields, in list order. */
  function OfFields(s: seq<Slot>, chipset: u32, platform: u32, subtype: u32, revNum: u32): seq<Slot> {
    if s == [] then []
    else
      var front, id := OfFields(s[..|s| - 1], chipset, platform, subtype, revNum), s[|s| - 1].id;
      if id.chipset == chipset && id.platform == platform && id.subtype == subtype && id.revNum == revNum
      then front + [s[|s| - 1]]
      else front
  }

  lemma {:induction false} OfFieldsIsOfKey(s: seq<Slot>, chipset: u32, platform: u32, subtype: u32, revNum: u32)
    ensures OfFields(s, chipset, platform, subtype, revNum) == OfKey(s, Key(chipset, platform, subtype, revNum))
  {
    if s != [] {
      OfFieldsIsOfKey(s[..|s| - 1], chipset, platform, subtype, revNum);
    }
  }

  /** Slots that agree in all four fields keep the order in which they were accepted. */
  lemma SameFieldsInOrderOfOffer(
    xs: seq<Slot>, chipset: u32, platform: u32, subtype: u32, revNum: u32)
    ensures OfFields(AddAll([], xs), chipset, platform, subtype, revNum) ==
            OfFields(Accepted(xs), chipset, platform, subtype, revNum)
  {
    AddAllIsStableSort(xs);
    OfFieldsIsOfKey(AddAll([], xs), chipset, platform, subtype, revNum);
    OfFieldsIsOfKey(Accepted(xs), chipset, platform, subtype, revNum);
  }

  /** Chipset first, then platform, then subtype, then revision. */
  predicate FieldsInOrder(a: ChipId, b: ChipId) {
    || a.chipset < b.chipset
    || (a.chipset == b.chipset && a.platform < b.platform)
    || (a.chipset == b.chipset && a.platform == b.platform && a.subtype < b.subtype)
    || (a.chipset == b.chipset && a.platform == b.platform && a.subtype == b.subtype && a.revNum <= b.revNum)
  }

  /** Neighbours and all others: the list is ordered by chipset, then platform, then subtype, then revision. */
  lemma SortedByFields(s: seq<Slot>, i: nat, j: nat)
    requires Sorted(s) && i < j < |s|
    ensures FieldsInOrder(s[i].id, s[j].id)
  {
    assert !Before(s[j].id, s[i].id);
  }

  /** After any offers the list is ordered by the fields, and no two slots share all eight of them. */
  lemma ListOfOffers(xs: seq<Slot>, i: nat, j: nat)
    requires i < j < |AddAll([], xs)|
    ensures AddAll([], xs)[i].id != AddAll([], xs)[j].id
    ensures FieldsInOrder(AddAll([], xs)[i].id, AddAll([], xs)[j].id)
  {
    AddAllIsStableSort(xs);
    SortedByFields(AddAll([], xs), i, j);
  }

  /** Every id that was ever offered is in the list, brought by its first offer. */
  lemma OffersAreListed(xs: seq<Slot>, i: nat)
    requires i < |xs| && forall k :: 0 <= k < i ==> xs[k].id != xs[i].id
    ensures xs[i] in AddAll([], xs)
  {
    AddAllIsStableSort(xs);
    AcceptedAreFirstOffers(xs, xs[i]);
    assert !HasId(xs[..i], xs[i].id);
    assert multiset(AddAll([], xs))[xs[i]] > 0;
  }

  lemma {:induction false} OfKeyMembers(s: seq<Slot>, k: Key)
    ensures forall x :: x in OfKey(s, k) <==> x in s && KeyOf(x.id) == k
  {
    if s != [] {
      OfKeyMembers(s[..|s| - 1], k);
      assert s == s[..|s| - 1] + [s[|s| - 1]];
    }
  }

  lemma LastKeyNotBefore(a: seq<Slot>, b: seq<Slot>)
    requires Sorted(a) && Sorted(b) && |a| > 0
    requires forall k :: OfKey(a, k) == OfKey(b, k)
    ensures |b| > 0 && !KeyBefore(KeyOf(b[|b| - 1].id), KeyOf(a[|a| - 1].id))
  {
    var x := a[|a| - 1];
    OfKeyMembers(a, KeyOf(x.id));
    OfKeyMembers(b, KeyOf(x.id));
    assert x in b;
    var i :| 0 <= i < |b| && b[i] == x;
    assert i == |b| - 1 || !Before(b[|b| - 1].id, b[i].id);
  }

  /** The stable sort is unique: order plus the per-key subsequences determine the whole list. */
  lemma {:induction false} StableSortIsUnique(a: seq<Slot>, b: seq<Slot>)
    requires Sorted(a) && Sorted(b)
    requires forall k :: OfKey(a, k) == OfKey(b, k)
    ensures a == b
    decreases |a|
  {
    if a == [] {
      if b != [] {
        LastKeyNotBefore(b, a);
      }
    } else {
      LastKeyNotBefore(a, b);
      LastKeyNotBefore(b, a);
      var a', b' := a[..|a| - 1], b[..|b| - 1];
      var x, y := a[|a| - 1], b[|b| - 1];
      var kx := KeyOf(x.id);
      assert kx == KeyOf(y.id);
      assert OfKey(a, kx) == OfKey(a', kx) + [x] && OfKey(b, kx) == OfKey(b', kx) + [y];
      assert OfKey(a, kx)[|OfKey(a, kx)| - 1] == OfKey(b, kx)[|OfKey(b, kx)| - 1];
      forall k ensures OfKey(a', k) == OfKey(b', k) {
        assert OfKey(a, k) == OfKey(b, k);
        if k == kx {
          assert OfKey(a', k) == OfKey(a, k)[..|OfKey(a, k)| - 1];
        }
      }
      StableSortIsUnique(a', b');
      assert a == a' + [x] && b == b' + [y];
    }
  }
}
