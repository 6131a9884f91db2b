/** The directory scan of dtbtool's main: every DTB file becomes a chain of nodes that is added to the list. */
module DtbScan {
  import opened Bytes
  import opened ChipIds
  import opened ChipList
  import opened Text
  import opened TagLines

  // ----- the t_next chain of one file

  function IdsOf(chain: seq<Chip>): (s: seq<ChipId>)
    ensures |s| == |chain| && forall i :: 0 <= i < |s| ==> s[i] == chain[i].id
  {
    seq(|chain|, i requires 0 <= i < |chain| => chain[i].id)
  }

  ghost predicate Chained(chain: seq<Chip>, chip: Chip?)
    reads chain`tNext, chain`wroteDtb, chain`masterOffset
  {
    && (|chain| == 0 <==> chip == null)
    && (|chain| > 0 ==> chip == chain[0] && chain[|chain| - 1].tNext == null)
    && (forall i {:trigger chain[i].tNext} :: 0 <= i < |chain| - 1 ==> chain[i].tNext == chain[i + 1])
    && (forall i, j :: 0 <= i < j < |chain| ==> chain[i] != chain[j])
    && (forall i :: 0 <= i < |chain| ==> chain[i].master == chain[0])
    && (forall i :: 0 <= i < |chain| ==> !chain[i].wroteDtb && chain[i].masterOffset == 0)
  }

  /** Make a node; the first one is the head and everybody's master, later ones go right behind it. */
  method Link(chip: Chip?, id: ChipId, ghost chain: seq<Chip>) returns (head: Chip, ghost longer: seq<Chip>)
    requires Chained(chain, chip)
    modifies Elems(chain)`tNext
    ensures Chained(longer, head) && IdsOf(longer) == Push(IdsOf(chain), id)
    ensures fresh(Elems(longer) - Elems(chain))
  {
    if chip != null {
      assert chip in Elems(chain);
    }
    hide IdsOf;
    hide Elems;
    hide Push;
    if chip == null {
      head := new Chip.Head(id);
      longer := [head];
      IdsOne(head);
    } else {
      var tmp := new Chip.Member(id, chip);
      tmp.tNext := chip.tNext;
      chip.tNext := tmp;
      head, longer := chip, [chip, tmp] + chain[1..];
      IdsPush(chain, tmp);
      assert forall i :: 2 <= i < |longer| ==> longer[i] == chain[i - 1];
    }
  }

  lemma IdsOne(c: Chip)
    ensures IdsOf([c]) == Push(IdsOf([]), c.id) && Elems([c]) == Elems([]) + {c}
  {
  }

  lemma IdsPush(chain: seq<Chip>, c: Chip)
    requires chain != []
    ensures IdsOf([chain[0], c] + chain[1..]) == Push(IdsOf(chain), c.id)
    ensures Elems([chain[0], c] + chain[1..]) == Elems(chain) + {c}
  {
    assert chain == [chain[0]] + chain[1..];
  }

  lemma PushedSnoc<T>(xs: seq<T>, x: T)
    ensures Pushed(xs + [x]) == Push(Pushed(xs), x)
  {
    assert (xs + [x])[..|xs|] == xs;
  }

  lemma EmptyChain()
    ensures Chained([], null) && IdsOf([]) == Pushed([])
  {
  }

  lemma RowSnoc(m: MsmId, b: BoardId, ps: seq<PmicId>, k: nat)
    requires k < |ps|
    ensures Row(m, b, ps[..k + 1]) == Row(m, b, ps[..k]) + [Combine(m, b, ps[k])]
  {
    assert ps[..k + 1][..k] == ps[..k];
  }

  lemma RowsSnoc(m: MsmId, bs: seq<BoardId>, ps: seq<PmicId>, j: nat)
    requires j < |bs|
    ensures Rows(m, bs[..j + 1], ps) == Rows(m, bs[..j], ps) + Row(m, bs[j], ps)
  {
    assert bs[..j + 1][..j] == bs[..j];
  }

  lemma ProductSnoc(ms: seq<MsmId>, bs: seq<BoardId>, ps: seq<PmicId>, i: nat)
    requires i < |ms|
    ensures Product(ms[..i + 1], bs, ps) == Product(ms[..i], bs, ps) + Rows(ms[i], bs, ps)
  {
    assert ms[..i + 1][..i] == ms[..i];
  }

  lemma EmptyProducts(m: MsmId, b: BoardId, bs: seq<BoardId>, ps: seq<PmicId>)
    ensures Row(m, b, []) == [] && Rows(m, [], ps) == [] && Product([], bs, ps) == []
  {
  }

  /** The innermost loop of getChipInfo: one node for every pmic id. */
  method LinkRow(m: MsmId, b: BoardId, ps: seq<PmicId>, head: Chip?, ghost linked: seq<Chip>, ghost done: seq<ChipId>)
    returns (chip: Chip?, ghost chain: seq<Chip>)
    requires Chained(linked, head) && IdsOf(linked) == Pushed(done)
    modifies Elems(linked)`tNext
    ensures Chained(chain, chip) && fresh(Elems(chain) - Elems(linked))
    ensures IdsOf(chain) == Pushed(done + Row(m, b, ps))
  {
    hide Chained;
    hide Pushed;
    hide Row;
    chip, chain := head, linked;
    EmptyProducts(m, b, [], []);
    assert done + [] == done;
    for k := 0 to |ps|
      invariant Chained(chain, chip) && fresh(Elems(chain) - Elems(linked))
      invariant IdsOf(chain) == Pushed(done + Row(m, b, ps[..k]))
    {
      RowSnoc(m, b, ps, k);
      PushedSnoc(done + Row(m, b, ps[..k]), Combine(m, b, ps[k]));
      assert done + Row(m, b, ps[..k + 1]) == done + Row(m, b, ps[..k]) + [Combine(m, b, ps[k])];
      chip, chain := Link(chip, Combine(m, b, ps[k]), chain);
    }
    assert ps[..|ps|] == ps;
  }

  /** The nested loops of getChipInfo over the parsed lists. */
  method LinkProduct(ms: seq<MsmId>, bs: seq<BoardId>, ps: seq<PmicId>) returns (chip: Chip?, ghost chain: seq<Chip>)
    ensures Chained(chain, chip) && fresh(Elems(chain))
    ensures IdsOf(chain) == Pushed(Product(ms, bs, ps))
  {
    hide Chained;
    hide Pushed;
    hide Rows;
    hide Row;
    hide Product;
    chip, chain := null, [];
    EmptyChain();
    EmptyProducts(MsmId(0, 0), BoardId(0, 0), bs, ps);
    ghost var done: seq<ChipId> := [];
    for i := 0 to |ms|
      invariant Chained(chain, chip) && fresh(Elems(chain)) && IdsOf(chain) == Pushed(done)
      invariant done == Product(ms[..i], bs, ps)
    {
      EmptyProducts(ms[i], BoardId(0, 0), bs, ps);
      for j := 0 to |bs|
        invariant Chained(chain, chip) && fresh(Elems(chain)) && IdsOf(chain) == Pushed(done)
        invariant done == Product(ms[..i], bs, ps) + Rows(ms[i], bs[..j], ps)
      {
        chip, chain := LinkRow(ms[i], bs[j], ps, chip, chain, done);
        done := done + Row(ms[i], bs[j], ps);
        RowsSnoc(ms[i], bs, ps, j);
      }
      assert bs[..|bs|] == bs;
      ProductSnoc(ms, bs, ps, i);
    }
    assert ms[..|ms|] == ms;
  }

  method LinkAll(ids: seq<ChipId>) returns (chip: Chip?, ghost chain: seq<Chip>)
    ensures Chained(chain, chip) && fresh(Elems(chain))
    ensures IdsOf(chain) == Pushed(ids)
  {
    chip, chain := null, [];
    for i := 0 to |ids|
      invariant Chained(chain, chip) && fresh(Elems(chain)) && IdsOf(chain) == Pushed(ids[..i])
    {
      PushedSnoc(ids[..i], ids[i]);
      assert ids[..i + 1] == ids[..i] + [ids[i]];
      chip, chain := Link(chip, ids[i], chain);
    }
    assert ids[..|ids|] == ids;
  }

  lemma TagGroupsSnoc(lines: seq<string>, i: nat, tag: string, n: nat, num: string -> u32)
    requires i < |lines| && n > 0
    ensures TagGroups(lines[..i + 1], tag, n, num) ==
            TagGroups(lines[..i], tag, n, num) +
            (if After(lines[i], tag).Some? then LineGroups(After(lines[i], tag).value, n, num) else [])
  {
    assert lines[..i + 1][..i] == lines[..i];
  }

  method ReadTag(line: string, tag: string, n: nat, num: string -> u32) returns (groups: seq<seq<u32>>)
    requires n > 0
    ensures groups == if After(line, tag).Some? then LineGroups(After(line, tag).value, n, num) else []
  {
    var hit := After(line, tag);
    if hit.Some? {
      groups := ReadGroups(hit.value, n, num);
    } else {
      groups := [];
    }
  }

  /** The line loop of getChipInfo for versions 2 and 3. */
  method ReadTags(lines: seq<string>, num: string -> u32)
    returns (ms: seq<seq<u32>>, bs: seq<seq<u32>>, ps: seq<seq<u32>>)
    ensures ms == TagGroups(lines, DT_TAG, 2, num)
    ensures bs == TagGroups(lines, BOARD_TAG, 2, num)
    ensures ps == TagGroups(lines, PMIC_TAG, 4, num)
  {
    ms, bs, ps := [], [], [];
    for i := 0 to |lines|
      invariant ms == TagGroups(lines[..i], DT_TAG, 2, num)
      invariant bs == TagGroups(lines[..i], BOARD_TAG, 2, num)
      invariant ps == TagGroups(lines[..i], PMIC_TAG, 4, num)
    {
      TagGroupsSnoc(lines, i, DT_TAG, 2, num);
      TagGroupsSnoc(lines, i, BOARD_TAG, 2, num);
      TagGroupsSnoc(lines, i, PMIC_TAG, 4, num);
      var m := ReadTag(lines[i], DT_TAG, 2, num);
      var b := ReadTag(lines[i], BOARD_TAG, 2, num);
      var p := ReadTag(lines[i], PMIC_TAG, 4, num);
      ms, bs, ps := ms + m, bs + b, ps + p;
    }
    assert lines[..|lines|] == lines;
  }

  method FindFirstTag(lines: seq<string>) returns (text: Option<string>)
    ensures text == FirstTagText(lines)
  {
    var i := 0;
    assert lines[0..] == lines;
    while i < |lines|
      invariant i <= |lines| && FirstTagText(lines) == FirstTagText(lines[i..])
    {
      if After(lines[i], DT_TAG).Some? {
        return After(lines[i], DT_TAG);
      }
      assert lines[i..][1..] == lines[i + 1..];
      i := i + 1;
    }
    return None;
  }

  /** getChipInfo */
  method GetChipInfo(lines: seq<string>, version: nat, num: string -> u32)
    returns (chip: Chip?, ghost chain: seq<Chip>)
    requires version == Version(lines)
    ensures Chained(chain, chip) && fresh(Elems(chain))
    ensures IdsOf(chain) == ChainIds(lines, num)
  {
    if version == 1 {
      var text := FindFirstTag(lines);
      if text.None? {
        return null, [];
      }
      var groups := ReadGroups(text.value, 3, num);
      GroupsTileTheNumbers(Numbers(Tokens(text.value, BLANKS), num), 3);
      chip, chain := LinkAll(TripleIds(groups));
      return;
    }
    var ms, bs, ps := ReadTags(lines, num);
    if |ms| == 0 || |bs| == 0 || (|ps| == 0 && version == 3) {
      return null, [];
    }
    TagGroupSizes(lines, DT_TAG, 2, num);
    TagGroupSizes(lines, BOARD_TAG, 2, num);
    TagGroupSizes(lines, PMIC_TAG, 4, num);
    var pmics := if version == 3 then PmicIds(ps) else [NO_PMIC];
    chip, chain := LinkProduct(Pushed(MsmIds(ms)), Pushed(BoardIds(bs)), Pushed(pmics));
  }

  // ----- the scan as a function on values

  /** A directory entry: what decompiling the file prints (nothing when that fails), and the size stat says. */
  datatype DirEntry = DirEntry(name: string, regular: bool, lines: seq<string>, size: Option<nat>)

  datatype DtbFile = DtbFile(name: string, size: nat)

  /** The list as values, and the file that each master stands for. */
  datatype Scan = Scan(slots: seq<Slot>, files: map<ChipId, DtbFile>)

  predicate IsDtb(e: DirEntry) {
    e.regular && |e.name| > 4 && EndsWith(e.name, ".dtb")
  }

  /** Padding is never empty: an aligned size gains a whole page. */
  function Padding(n: nat, page: nat): (p: nat)
    requires page > 0
    ensures 1 <= p <= page && (n + p) % page == 0
  {
    PaddingAligns(n, page);
    page - n % page
  }

  lemma PaddingAligns(n: nat, page: nat)
    requires page > 0
    ensures (n + (page - n % page)) % page == 0
  {
    var q := n / page;
    assert n == q * page + n % page;
    assert n + (page - n % page) == (q + 1) * page;
    MultipleIsAligned(q + 1, page);
  }

  lemma NoSmallMultiple(k: int, page: nat)
    requires page > 0 && k != 0
    ensures !(0 <= k * page < page)
  {
    if k > 0 {
      assert k * page >= page;
    } else {
      assert k * page < 0;
    }
  }

  lemma MultipleIsAligned(q: nat, page: nat)
    requires page > 0
    ensures q * page % page == 0
  {
    var d, r := q * page / page, q * page % page;
    assert (q - d) * page == r;
    if q != d {
      NoSmallMultiple(q - d, page);
    }
  }

  function Padded(n: nat, page: nat): nat
    requires page > 0
  {
    n + Padding(n, page)
  }

  function Offers(chain: seq<ChipId>): (s: seq<Slot>)
    requires chain != []
    ensures |s| == |chain| && forall i :: 0 <= i < |s| ==> s[i] == Slot(chain[i], chain[0])
  {
    seq(|chain|, i requires 0 <= i < |chain| => Slot(chain[i], chain[0]))
  }

  predicate Readable(e: DirEntry, num: string -> u32) {
    IsDtb(e) && ChainIds(e.lines, num) != [] && e.size.Some? && e.size.value != 0
  }

  /** The scan after a file's chain has been offered: a file whose head id is already present is dropped whole. */
  function WithFile(s: Scan, chain: seq<ChipId>, file: DtbFile): Scan
    requires chain != []
  {
    if HasId(s.slots, chain[0]) then s
    else Scan(AddAll(s.slots, Offers(chain)), s.files[chain[0] := file])
  }

  function ScanEntry(s: Scan, e: DirEntry, page: nat, num: string -> u32): Scan
    requires page > 0
  {
    if !Readable(e, num) then s
    else WithFile(s, ChainIds(e.lines, num), DtbFile(e.name, Padded(e.size.value, page)))
  }

  function ScanAll(dir: seq<DirEntry>, page: nat, num: string -> u32): Scan
    requires page > 0
  {
    if dir == [] then Scan([], map[])
    else ScanEntry(ScanAll(dir[..|dir| - 1], page, num), dir[|dir| - 1], page, num)
  }

  // ----- what every scan guarantees

  predicate OwnMaster(s: Scan, m: ChipId) {
    m in s.files && Slot(m, m) in s.slots
  }

  /** Sorted, duplicate-free, and every node's master is in the list, is its own master and has a page-aligned file. */
  predicate ScanValid(s: Scan, page: nat)
    requires page > 0
  {
    && Sorted(s.slots) && UniqueIds(s.slots)
    && (forall i :: 0 <= i < |s.slots| ==> OwnMaster(s, s.slots[i].master))
    && (forall m :: m in s.files ==> s.files[m].size > 0 && s.files[m].size % page == 0)
  }

  lemma AddKeeps(s: seq<Slot>, x: Slot)
    requires Sorted(s) && UniqueIds(s)
    ensures Sorted(Add(s, x)) && UniqueIds(Add(s, x))
    ensures forall y :: y in Add(s, x) <==> y in s || (y == x && !HasId(s, x.id))
  {
    if !HasId(s, x.id) {
      InsertKeepsOrder(s, x);
      hide Sorted;
      hide UniqueIds;
      hide HasId;
      assert s == s[..Rank(s, x.id)] + s[Rank(s, x.id)..];
    }
  }

  lemma {:induction false} AddAllKeeps(s: seq<Slot>, xs: seq<Slot>)
    requires Sorted(s) && UniqueIds(s)
    ensures Sorted(AddAll(s, xs)) && UniqueIds(AddAll(s, xs))
    ensures forall x :: x in s ==> x in AddAll(s, xs)
    ensures forall x :: x in AddAll(s, xs) ==> x in s || x in xs
    ensures xs != [] && !HasId(s, xs[0].id) ==> xs[0] in AddAll(s, xs)
  {
    hide Sorted;
    hide UniqueIds;
    hide Add;
    if xs != [] {
      var front, x := xs[..|xs| - 1], xs[|xs| - 1];
      AddAllKeeps(s, front);
      AddKeeps(AddAll(s, front), x);
      assert xs == front + [x];
      if front == [] {
        AddAllEmpty(s, xs);
      }
    }
  }

  lemma ScanEntryKeeps(s: Scan, e: DirEntry, page: nat, num: string -> u32)
    requires page > 0 && ScanValid(s, page)
    ensures ScanValid(ScanEntry(s, e, page, num), page)
  {
    hide ChainIds;
    hide AddAll;
    hide Sorted;
    hide UniqueIds;
    hide HasId;
    if Readable(e, num) && !HasId(s.slots, ChainIds(e.lines, num)[0]) {
      var chain := ChainIds(e.lines, num);
      var t := ScanEntry(s, e, page, num);
      AddAllKeeps(s.slots, Offers(chain));
      forall i | 0 <= i < |t.slots| ensures OwnMaster(t, t.slots[i].master) {
        var x := t.slots[i];
        if x in s.slots {
          var j :| 0 <= j < |s.slots| && s.slots[j] == x;
        } else {
          assert x in Offers(chain) && Slot(x.master, x.master) == Offers(chain)[0];
        }
      }
    }
  }

  /** After any directory scan the list and its masters are in order. */
  lemma {:induction false} ScanIsValid(dir: seq<DirEntry>, page: nat, num: string -> u32)
    requires page > 0
    ensures ScanValid(ScanAll(dir, page, num), page)
  {
    if dir != [] {
      ScanIsValid(dir[..|dir| - 1], page, num);
      ScanEntryKeeps(ScanAll(dir[..|dir| - 1], page, num), dir[|dir| - 1], page, num);
    }
  }

  /** An id once in the list keeps its master, and that master keeps its file, whatever is scanned later. */
  lemma {:induction false} FirstFileWins(dir: seq<DirEntry>, more: seq<DirEntry>, page: nat, num: string -> u32)
    requires page > 0
    ensures var s, t := ScanAll(dir, page, num), ScanAll(dir + more, page, num);
            && (forall x :: x in s.slots ==> x in t.slots)
            && (forall m :: OwnMaster(s, m) ==> OwnMaster(t, m) && t.files[m] == s.files[m])
  {
    if more == [] {
      assert dir + more == dir;
    } else {
      var front, e := more[..|more| - 1], more[|more| - 1];
      FirstFileWins(dir, front, page, num);
      assert (dir + more)[..|dir + more| - 1] == dir + front;
      ScanIsValid(dir + front, page, num);
      EntryKeepsOld(ScanAll(dir + front, page, num), e, page, num);
      hide ScanEntry;
      hide ScanValid;
      hide OwnMaster;
    }
  }

  lemma EntryKeepsOld(s: Scan, e: DirEntry, page: nat, num: string -> u32)
    requires page > 0 && ScanValid(s, page)
    ensures var t := ScanEntry(s, e, page, num);
            && (forall x :: x in s.slots ==> x in t.slots)
            && (forall m :: OwnMaster(s, m) ==> OwnMaster(t, m) && t.files[m] == s.files[m])
  {
    hide ChainIds;
    hide AddAll;
    hide Sorted;
    hide UniqueIds;
    var t := ScanEntry(s, e, page, num);
    if Readable(e, num) && !HasId(s.slots, ChainIds(e.lines, num)[0]) {
      AddAllKeeps(s.slots, Offers(ChainIds(e.lines, num)));
      forall m | OwnMaster(s, m) ensures OwnMaster(t, m) && t.files[m] == s.files[m] {
        var i :| 0 <= i < |s.slots| && s.slots[i] == Slot(m, m);
        assert s.slots[i].id == m;
      }
    }
  }

  /** A directory entry that brought a slot's chain, and whose name and padded size its master carries. */
  predicate Brought(e: DirEntry, x: Slot, file: DtbFile, page: nat, num: string -> u32)
    requires page > 0
  {
    && Readable(e, num) && x.id in ChainIds(e.lines, num) && x.master == ChainIds(e.lines, num)[0]
    && file.name == e.name
    && e.size.value < file.size <= e.size.value + page && file.size % page == 0
  }

  /** Every slot of a scan was brought by a file of the directory, which is the file of its master. */
  lemma {:induction false} SlotsComeFromFiles(dir: seq<DirEntry>, page: nat, num: string -> u32, x: Slot)
    requires page > 0 && x in ScanAll(dir, page, num).slots
    ensures x.master in ScanAll(dir, page, num).files
    ensures exists e :: e in dir && Brought(e, x, ScanAll(dir, page, num).files[x.master], page, num)
  {
    var front, e := dir[..|dir| - 1], dir[|dir| - 1];
    ScanIsValid(front, page, num);
    SlotsOfEntry(ScanAll(front, page, num), e, page, num, x);
    assert dir == front + [e];
    hide ScanEntry;
    hide Brought;
    if x in ScanAll(front, page, num).slots {
      SlotsComeFromFiles(front, page, num, x);
    }
  }

  /** A slot after one more entry is an old one whose master keeps its file, or was brought by the entry. */
  lemma SlotsOfEntry(s: Scan, e: DirEntry, page: nat, num: string -> u32, x: Slot)
    requires page > 0 && ScanValid(s, page) && x in ScanEntry(s, e, page, num).slots
    ensures var t := ScanEntry(s, e, page, num);
            && x.master in t.files
            && if x in s.slots then x.master in s.files && t.files[x.master] == s.files[x.master]
               else Brought(e, x, t.files[x.master], page, num)
  {
    if x in s.slots {
      MasterIsKnown(s, x, page);
    } else {
      AddAllKeeps(s.slots, Offers(ChainIds(e.lines, num)));
      assert x in Offers(ChainIds(e.lines, num));
    }
    hide ChainIds;
    hide AddAll;
    hide Sorted;
    hide UniqueIds;
  }

  lemma MasterIsKnown(s: Scan, x: Slot, page: nat)
    requires page > 0 && ScanValid(s, page) && x in s.slots
    ensures HasId(s.slots, x.master) && x.master in s.files
  {
    var i :| 0 <= i < |s.slots| && s.slots[i] == x;
    assert OwnMaster(s, s.slots[i].master);
    var j :| 0 <= j < |s.slots| && s.slots[j] == Slot(x.master, x.master);
    assert s.slots[j].id == x.master;
  }

  /** What a directory entry must be to count: a regular file named `.dtb`, with ids, and not empty. */
  lemma EntryCounts(e: DirEntry, num: string -> u32)
    ensures Readable(e, num) <==>
            && e.regular && |e.name| > 4
            && e.name[|e.name| - 4] == '.' && e.name[|e.name| - 3] == 'd'
            && e.name[|e.name| - 2] == 't' && e.name[|e.name| - 1] == 'b'
            && ChainIds(e.lines, num) != []
            && e.size.Some? && e.size.value > 0
  {
    if |e.name| > 4 {
      var end := e.name[|e.name| - 4..];
      assert end == ".dtb" <==> end[0] == '.' && end[1] == 'd' && end[2] == 't' && end[3] == 'b';
    }
  }

  /** Any other entry might as well not be there, and a counting one has its head id listed afterwards. */
  lemma {:induction false} EntryIsUsedOrIgnored(
    a: seq<DirEntry>, e: DirEntry, b: seq<DirEntry>, page: nat, num: string -> u32)
    requires page > 0
    ensures !Readable(e, num) ==> ScanAll(a + [e] + b, page, num) == ScanAll(a + b, page, num)
    ensures Readable(e, num) ==> HasId(ScanAll(a + [e] + b, page, num).slots, ChainIds(e.lines, num)[0])
  {
    hide ChainIds;
    hide HasId;
    if b == [] {
      assert a + [e] + b == a + [e] && a + b == a;
      assert (a + [e])[..|a|] == a;
      EntryListsHead(ScanAll(a, page, num), e, page, num);
      ScanIsValid(a, page, num);
    } else {
      var front := b[..|b| - 1];
      EntryIsUsedOrIgnored(a, e, front, page, num);
      assert (a + [e] + b)[..|a + [e] + b| - 1] == a + [e] + front && (a + b)[..|a + b| - 1] == a + front;
      if Readable(e, num) {
        FirstFileWins(a + [e] + front, [b[|b| - 1]], page, num);
        assert a + [e] + front + [b[|b| - 1]] == a + [e] + b;
        StillListed(ScanAll(a + [e] + front, page, num).slots, ScanAll(a + [e] + b, page, num).slots,
                    ChainIds(e.lines, num)[0]);
      }
      hide ScanEntry;
    }
  }

  lemma StillListed(s: seq<Slot>, t: seq<Slot>, id: ChipId)
    requires HasId(s, id) && forall x :: x in s ==> x in t
    ensures HasId(t, id)
  {
    var i :| 0 <= i < |s| && s[i].id == id;
    assert s[i] in t;
    var j :| 0 <= j < |t| && t[j] == s[i];
  }

  /** A counting entry with a new head lists all its ids. */
  lemma EntryListsHead(s: Scan, e: DirEntry, page: nat, num: string -> u32)
    requires page > 0
    ensures Readable(e, num) ==> HasId(ScanEntry(s, e, page, num).slots, ChainIds(e.lines, num)[0])
    ensures Readable(e, num) && !HasId(s.slots, ChainIds(e.lines, num)[0]) ==>
              forall id :: id in ChainIds(e.lines, num) ==> HasId(ScanEntry(s, e, page, num).slots, id)
  {
    if Readable(e, num) && !HasId(s.slots, ChainIds(e.lines, num)[0]) {
      var chain := ChainIds(e.lines, num);
      forall id | id in chain ensures HasId(ScanEntry(s, e, page, num).slots, id) {
        var i :| 0 <= i < |chain| && chain[i] == id;
        assert Offers(chain)[i].id == id;
        AddAllLists(s.slots, Offers(chain), id);
      }
    }
  }

  lemma {:induction false} AddAllLists(s: seq<Slot>, xs: seq<Slot>, id: ChipId)
    requires HasId(s, id) || HasId(xs, id)
    ensures HasId(AddAll(s, xs), id)
  {
    hide HasId;
    hide Insert;
    if xs == [] {
      NoneListed(id);
    } else {
      var front, x := xs[..|xs| - 1], xs[|xs| - 1];
      assert xs == front + [x];
      IdsSnoc(front, x, id);
      if HasId(s, id) || HasId(front, id) {
        AddAllLists(s, front, id);
      }
      InsertIds(AddAll(s, front), x, id);
    }
  }

  lemma NoneListed(id: ChipId)
    ensures !HasId([], id)
  {
  }

  /** All slots that the files of a directory offer to the list, in scan order; a dropped file offers none. */
  function Offered(dir: seq<DirEntry>, page: nat, num: string -> u32): seq<Slot>
    requires page > 0
  {
    if dir == [] then []
    else
      var front, e := dir[..|dir| - 1], dir[|dir| - 1];
      var chain := ChainIds(e.lines, num);
      Offered(front, page, num)
      + if Readable(e, num) && !HasId(ScanAll(front, page, num).slots, chain[0]) then Offers(chain) else []
  }

  lemma {:induction false} AddAllConcat(s: seq<Slot>, a: seq<Slot>, b: seq<Slot>)
    ensures AddAll(s, a + b) == AddAll(AddAll(s, a), b)
  {
    hide Add;
    if b == [] {
      assert a + b == a;
    } else {
      AddAllConcat(s, a, b[..|b| - 1]);
      assert (a + b)[..|a + b| - 1] == a + b[..|b| - 1];
    }
  }

  /** The list of a scan is the stable sort of the first offers of all ids. */
  lemma ScanIsStableSort(dir: seq<DirEntry>, page: nat, num: string -> u32)
    requires page > 0
    ensures var slots, offered := ScanAll(dir, page, num).slots, Offered(dir, page, num);
            && slots == AddAll([], offered)
            && Sorted(slots) && multiset(slots) == multiset(Accepted(offered))
            && forall k :: OfKey(slots, k) == OfKey(Accepted(offered), k)
  {
    ScanIsAddAll(dir, page, num);
    AddAllIsStableSort(Offered(dir, page, num));
  }

  lemma {:induction false} ScanIsAddAll(dir: seq<DirEntry>, page: nat, num: string -> u32)
    requires page > 0
    ensures ScanAll(dir, page, num).slots == AddAll([], Offered(dir, page, num))
  {
    if dir != [] {
      var front, e := dir[..|dir| - 1], dir[|dir| - 1];
      ScanIsAddAll(front, page, num);
      hide AddAll;
      hide ChainIds;
      hide Offers;
      if Readable(e, num) {
        AddAllConcat([], Offered(front, page, num), Offers(ChainIds(e.lines, num)));
      }
      assert Offered(front, page, num) + [] == Offered(front, page, num);
    }
  }

  // ----- the scan on the heap

  /** What the heap nodes say agrees with the scan as a value. */
  ghost predicate Represents(list: List, s: Scan)
    reads list, list.repr`dtbFile, list.repr`dtbSize, list.repr`wroteDtb, list.repr`masterOffset
  {
    SlotsOf(list.nodes) == s.slots && MastersAgree(list.repr, s.files)
  }

  ghost predicate MastersAgree(repr: set<Chip>, files: map<ChipId, DtbFile>)
    reads repr`dtbFile, repr`dtbSize, repr`wroteDtb, repr`masterOffset
  {
    && (forall n :: n in repr ==> n.master in repr && n.master.master == n.master)
    && (forall n :: n in repr && n.master == n ==>
          n.id in files && n.dtbFile == files[n.id].name && n.dtbSize == files[n.id].size)
    && (forall n :: n in repr ==> !n.wroteDtb && n.masterOffset == 0)
  }

  lemma AddAllSnoc(s: seq<Slot>, xs: seq<Slot>, k: nat)
    requires k < |xs|
    ensures AddAll(s, xs[..k + 1]) == Add(AddAll(s, xs[..k]), xs[k])
  {
    assert xs[..k + 1][..k] == xs[..k];
  }

  lemma AddAllEmpty(s: seq<Slot>, xs: seq<Slot>)
    ensures AddAll(s, xs[..0]) == s
  {
  }

  /** Add the rest of a chain behind its accepted head. */
  method AddChain(list: List, chip: Chip, ghost chain: seq<Chip>, ghost slots: seq<Slot>, count: nat)
    returns (total: nat)
    requires list.Valid() && Chained(chain, chip) && chain != []
    requires forall i :: 1 <= i < |chain| ==> chain[i] !in list.repr
    requires SlotsOf(list.nodes) == Add(slots, Slot(chip.id, chip.id))
    requires count == |list.nodes|
    modifies list, list.repr`next, list.repr`prev, Elems(chain)`next, Elems(chain)`prev
    ensures list.Valid() && Chained(chain, chip) && total == |list.nodes|
    ensures SlotsOf(list.nodes) == AddAll(slots, Offers(IdsOf(chain)))
    ensures old(list.repr) <= list.repr <= old(list.repr) + Elems(chain)
  {
    hide Sorted;
    hide UniqueIds;
    hide Linked;
    hide AddAll;
    hide ChipIds.Add;
    ghost var offers := Offers(IdsOf(chain));
    AddAllEmpty(slots, offers);
    total := count;
    var t := chip.tNext;
    ghost var k := 1;
    AddAllSnoc(slots, offers, 0);
    while t != null
      invariant 1 <= k <= |chain| && Chained(chain, chip)
      invariant t == if k < |chain| then chain[k] else null
      invariant list.Valid() && total == |list.nodes|
      invariant SlotsOf(list.nodes) == AddAll(slots, offers[..k])
      invariant forall i :: k <= i < |chain| ==> chain[i] !in list.repr
      invariant old(list.repr) <= list.repr <= old(list.repr) + Elems(chain)
      decreases |chain| - k
    {
      AddAllSnoc(slots, offers, k);
      assert SlotOf(t) == offers[k];
      assert t in Elems(chain);
      var ok := list.Add(t);
      if ok {
        total := total + 1;
      }
      t := t.tNext;
      k := k + 1;
    }
    assert offers[..k] == offers;
  }

  /** The scan loop of main. */
  method ScanDirectory(dir: seq<DirEntry>, page: nat, num: string -> u32) returns (list: List, count: nat)
    requires page > 0
    ensures fresh(list) && fresh(list.repr) && list.Valid()
    ensures Represents(list, ScanAll(dir, page, num))
    ensures count == |list.nodes|
  {
    list := new List();
    count := 0;
    for i := 0 to |dir|
      invariant fresh(list) && fresh(list.repr) && list.Valid()
      invariant Represents(list, ScanAll(dir[..i], page, num))
      invariant count == |list.nodes|
    {
      assert dir[..i + 1][..i] == dir[..i];
      count := ScanOne(list, dir[i], page, num, count, ScanAll(dir[..i], page, num));
    }
    assert dir[..|dir|] == dir;
  }

  lemma AbsentId(list: List, id: ChipId)
    requires list.Valid() && !HasId(SlotsOf(list.nodes), id)
    ensures forall n :: n in list.repr ==> n.id != id
  {
    forall n | n in list.repr ensures n.id != id {
      var i :| 0 <= i < |list.nodes| && list.nodes[i] == n;
      assert SlotsOf(list.nodes)[i].id == n.id;
    }
  }

  lemma ChainHead(chain: seq<Chip>, chip: Chip)
    requires Chained(chain, chip)
    ensures chain != [] && chain[0] == chip && chip in Elems(chain) && chip.master == chip
    ensures IdsOf(chain)[0] == chip.id
    ensures forall i :: 1 <= i < |chain| ==> chain[i] != chip && chain[i] in Elems(chain)
  {
  }

  lemma MastersGrow(repr: set<Chip>, chip: Chip, chain: seq<Chip>, files: map<ChipId, DtbFile>, file: DtbFile)
    requires MastersAgree(repr, files) && Chained(chain, chip)
    requires forall n :: n in repr ==> n.id != chip.id
    requires chip.dtbFile == file.name && chip.dtbSize == file.size
    ensures MastersAgree(repr + Elems(chain), files[chip.id := file])
    ensures forall n :: n in repr ==> n.master in repr
    ensures forall n :: n in Elems(chain) ==> n.master == chip
  {
  }

  lemma MastersShrink(repr: set<Chip>, smaller: set<Chip>, files: map<ChipId, DtbFile>)
    requires MastersAgree(repr, files) && smaller <= repr
    requires forall n :: n in smaller ==> n.master in smaller
    ensures MastersAgree(smaller, files)
  {
  }

  /** What follows the accepted head: it gets the file, and the rest of the chain is added. */
  method AddRest(list: List, chip: Chip, ghost chain: seq<Chip>, file: DtbFile, count: nat,
                 ghost s: Scan, ghost was: set<Chip>)
    returns (total: nat)
    requires list.Valid() && Chained(chain, chip) && chain != [] && count == |list.nodes|
    requires Elems(chain) !! was && list.repr == was + {chip}
    requires SlotsOf(list.nodes) == Add(s.slots, Slot(chip.id, chip.id))
    requires MastersAgree(was, s.files) && forall n :: n in was ==> n.id != chip.id
    modifies list, list.repr`next, list.repr`prev, Elems(chain)
    ensures list.Valid() && total == |list.nodes| && list.repr <= was + Elems(chain)
    ensures SlotsOf(list.nodes) == AddAll(s.slots, Offers(IdsOf(chain)))
    ensures MastersAgree(list.repr, s.files[chip.id := file])
  {
    hide AddAll;
    hide ChipIds.Add;
    hide Sorted;
    hide UniqueIds;
    hide Linked;
    hide Distinct;
    hide MastersAgree;
    hide Chained;
    ChainHead(chain, chip);
    chip.dtbSize := file.size;
    chip.dtbFile := file.name;
    MastersGrow(was, chip, chain, s.files, file);
    total := AddChain(list, chip, chain, s.slots, count);
    MastersShrink(was + Elems(chain), list.repr, s.files[chip.id := file]);
  }

  /** Offer a file's chain to the list: the head first, then the rest unless the head was refused. */
  method AddFile(list: List, chip: Chip, ghost chain: seq<Chip>, file: DtbFile, count: nat, ghost s: Scan)
    returns (total: nat)
    requires list.Valid() && Represents(list, s) && count == |list.nodes|
    requires Chained(chain, chip) && chain != [] && Elems(chain) !! list.repr
    modifies list, list.repr`next, list.repr`prev, Elems(chain)
    ensures list.Valid() && Represents(list, WithFile(s, IdsOf(chain), file)) && total == |list.nodes|
    ensures list.repr <= old(list.repr) + Elems(chain)
  {
    hide AddAll;
    hide ChipIds.Add;
    hide Sorted;
    hide UniqueIds;
    hide Linked;
    hide Distinct;
    hide MastersAgree;
    hide Chained;
    ChainHead(chain, chip);
    if !HasId(s.slots, chip.id) {
      AbsentId(list, chip.id);
    }
    ghost var was := list.repr;
    var ok := list.Add(chip);
    if !ok {
      return count;
    }
    total := AddRest(list, chip, chain, file, count + 1, s, was);
  }

  /** One directory entry. */
  method ScanOne(list: List, e: DirEntry, page: nat, num: string -> u32, count: nat, ghost s: Scan)
    returns (total: nat)
    requires page > 0 && list.Valid() && Represents(list, s) && count == |list.nodes|
    modifies list, list.repr`next, list.repr`prev
    ensures list.Valid() && Represents(list, ScanEntry(s, e, page, num)) && total == |list.nodes|
    ensures fresh(list.repr - old(list.repr))
  {
    hide AddAll;
    hide ChipIds.Add;
    hide Sorted;
    hide UniqueIds;
    hide Linked;
    hide Distinct;
    hide ChainIds;
    hide Version;
    hide MastersAgree;
    total := count;
    if !(e.regular && |e.name| > 4 && EndsWith(e.name, ".dtb")) {
      return;
    }
    var version := GetVersionInfo(e.lines);
    var chip, chain := GetChipInfo(e.lines, version, num);
    if chip == null {
      return;
    }
    if e.size.None? || e.size.value == 0 {
      return;
    }
    assert forall c :: c in Elems(chain) ==> c !in list.repr;
    total := AddFile(list, chip, chain, DtbFile(e.name, Padded(e.size.value, page)), count, s);
  }
}
