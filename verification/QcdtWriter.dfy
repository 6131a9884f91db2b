/** The two passes of dtbtool's main over the heap list, with a kernel that may write less than asked. */
module QcdtWriter {
  import opened Bytes
  import opened ChipIds
  import opened ChipList
  import opened DtbScan
  import opened QcdtLayout

  const SIZE_T: nat := 0x1_0000_0000_0000_0000
  const COPY_BLK: nat := 1024
  const INT_LIMIT: nat := 0x8000_0000

  /** The output file and the byte counter `wrote`, a size_t that adds up whatever write() returned. */
  class OutFile {
    var data: Blob
    var wrote: nat
    ghost var asked: Blob
    ghost var lost: nat
    ghost var wraps: int

    ghost predicate Valid()
      reads this
    {
      && wrote < SIZE_T && wrote == |asked| - lost + wraps * SIZE_T
      && lost <= 2 * |asked|
      && (lost == 0 ==> data == asked)
    }

    constructor ()
      ensures Valid() && data == asked == [] && lost == 0
    {
      data, wrote, asked, lost, wraps := [], 0, [], 0, 0;
    }

    /** write(2): -1, or any number of bytes up to the request. */
    method Write(bytes: Blob)
      requires Valid() && 0 < |bytes| < SIZE_T
      modifies this
      ensures Valid() && asked == old(asked) + bytes && lost >= old(lost)
    {
      var r: int :| -1 <= r <= |bytes|;
      data := data + if r > 0 then bytes[..r] else [];
      asked := asked + bytes;
      lost := lost + (|bytes| - r);
      if wrote + r < 0 {
        wrote, wraps := wrote + r + SIZE_T, wraps + 1;
      } else if wrote + r >= SIZE_T {
        wrote, wraps := wrote + r - SIZE_T, wraps - 1;
      } else {
        wrote := wrote + r;
      }
    }

    /** The closing comparison: the counter meets the expectation exactly when no byte was lost. */
    lemma CountsMatch(expected: nat)
      requires Valid() && expected == |asked| < INT_LIMIT
      ensures expected == wrote <==> lost == 0
      ensures lost == 0 ==> data == asked
    {
    }
  }

  // ----- pass one: the table

  /** Assigned offsets: those of the masters met so far, and zero for all others. */
  ghost predicate Assigned(repr: set<Chip>, ms: seq<ChipId>, size: Sizes, start: nat)
    reads repr`masterOffset
  {
    forall n :: n in repr && n.master == n ==>
      n.masterOffset == if n.id in ms then OffsetOf(ms, size, start, n.id) else 0
  }

  /** The masters of the list and their padded sizes; nothing of this changes while writing. */
  ghost predicate Sized(repr: set<Chip>, size: Sizes)
    reads repr`dtbSize
  {
    && (forall n :: n in repr ==> n.master in repr && n.master.master == n.master)
    && (forall n :: n in repr && n.master == n ==> n.id in size && n.dtbSize == size[n.id])
    && (forall a, b :: a in repr && b in repr && a.id == b.id ==> a == b)
  }

  method WriteWords(out: OutFile, ws: seq<nat>)
    requires out.Valid()
    modifies out
    ensures out.Valid() && out.asked == old(out.asked) + Words(ws) && out.lost >= old(out.lost)
  {
    assert out.asked + [] == out.asked;
    for k := 0 to |ws|
      invariant out.Valid() && out.lost >= old(out.lost)
      invariant out.asked == old(out.asked) + Words(ws[..k])
    {
      assert ws[..k + 1][..k] == ws[..k];
      out.Write(LE32(ws[k]));
    }
    assert ws[..|ws|] == ws;
  }

  function Met(ms: seq<ChipId>, m: ChipId): seq<ChipId> {
    if m in ms then ms else ms + [m]
  }

  /** Take the master's offset, or give it the next free one; zero stands for "none yet". */
  method PlaceMaster(ghost repr: set<Chip>, m: Chip, ghost size: Sizes, expected: nat,
                     ghost ms: seq<ChipId>, ghost start: nat)
    returns (off: nat, next: nat)
    requires m in repr && m.master == m && m.id in size && m.dtbSize == size[m.id]
    requires forall a, b :: a in repr && b in repr && a.id == b.id ==> a == b
    requires start > 0 && expected == start + Total(ms, size) && expected < INT_LIMIT
    requires Assigned(repr, ms, size, start)
    modifies m`masterOffset
    ensures m.id in Met(ms, m.id) && off == OffsetOf(Met(ms, m.id), size, start, m.id)
    ensures next == start + Total(Met(ms, m.id), size)
    ensures Assigned(repr, Met(ms, m.id), size, start)
  {
    if m.masterOffset != 0 {
      return m.masterOffset, expected;
    }
    PlaceNext(ms, size, start, m.id);
    assert m.id !in ms;
    hide Total;
    hide OffsetOf;
    off, next := expected, expected + m.dtbSize;
    m.masterOffset := expected % U32_LIMIT;
  }

  lemma PlaceNext(ms: seq<ChipId>, size: Sizes, start: nat, m: ChipId)
    ensures Total(ms + [m], size) == Total(ms, size) + SizeOf(size, m)
    ensures m !in ms ==> OffsetOf(ms + [m], size, start, m) == start + Total(ms, size)
    ensures forall n :: n in ms ==> OffsetOf(ms + [m], size, start, n) == OffsetOf(ms, size, start, n)
  {
    assert (ms + [m])[..|ms|] == ms;
  }

  lemma MastersSnoc(slots: seq<Slot>, i: nat)
    requires i < |slots|
    ensures Masters(slots[..i + 1]) == Met(Masters(slots[..i]), slots[i].master)
  {
    assert slots[..i + 1][..i] == slots[..i];
  }

  lemma {:induction false} TotalOfPrefix(ms: seq<ChipId>, ns: seq<ChipId>, size: Sizes)
    requires ms <= ns
    ensures Total(ms, size) <= Total(ns, size)
  {
    if |ms| < |ns| {
      TotalOfPrefix(ms, ns[..|ns| - 1], size);
    } else {
      assert ms == ns;
    }
  }

  /** The body of pass one, for the i-th node of the list. */
  method PutEntry(ghost repr: set<Chip>, ghost slots: seq<Slot>, ghost i: nat, chip: Chip, out: OutFile,
                  ghost size: Sizes, ghost start: nat, expected: nat)
    returns (next: nat)
    requires out.Valid() && chip in repr && i < |slots| && slots[i] == SlotOf(chip)
    requires Sized(repr, size) && Assigned(repr, Masters(slots[..i]), size, start)
    requires start > 0 && start + Total(Masters(slots), size) < INT_LIMIT
    requires expected == start + Total(Masters(slots[..i]), size)
    modifies out, repr`masterOffset
    ensures out.Valid() && out.lost >= old(out.lost)
    ensures Assigned(repr, Masters(slots[..i + 1]), size, start)
    ensures next == start + Total(Masters(slots[..i + 1]), size)
    ensures out.asked == old(out.asked) + EntryOf(slots, i, size, start)
  {
    hide Total;
    hide OffsetOf;
    hide Assigned;
    hide EntryBytes;
    MastersOfPrefix(slots, i);
    TotalOfPrefix(Masters(slots[..i]), Masters(slots), size);
    MastersSnoc(slots, i);
    hide Masters;
    var off;
    off, next := PlaceMaster(repr, chip.master, size, expected, Masters(slots[..i]), start);
    WriteEntry(out, chip.id, off, chip.master.dtbSize);
  }

  /** The bytes of the i-th table entry. */
  ghost function EntryOf(slots: seq<Slot>, i: nat, size: Sizes, start: nat): Blob
    requires i < |slots|
  {
    ListedAt(slots, i);
    EntryBytes(slots[i].id, OffsetOf(Masters(slots[..i + 1]), size, start, slots[i].master),
               SizeOf(size, slots[i].master))
  }

  /** Pass one: the index table. */
  method WriteTable(list: List, out: OutFile, ghost size: Sizes, start: nat) returns (expected: nat)
    requires list.Valid() && out.Valid() && Sized(list.repr, size) && Assigned(list.repr, [], size, start)
    requires start > 0 && start + Total(Masters(SlotsOf(list.nodes)), size) < INT_LIMIT
    modifies out, list.repr`masterOffset
    ensures out.Valid() && out.lost >= old(out.lost)
    ensures out.asked == old(out.asked) + Table(SlotsOf(list.nodes), size, start)
    ensures expected == start + Total(Masters(SlotsOf(list.nodes)), size)
  {
    hide *;
    ghost var slots, nodes, repr := SlotsOf(list.nodes), list.nodes, list.repr;
    expected := start;
    var chip := list.head;
    ghost var i := 0;
    NothingPlaced(slots, size, start);
    StartOfList(list);
    assert out.asked + [] == out.asked;
    while chip != null
      invariant i <= |nodes| && chip == if i < |nodes| then nodes[i] else null
      invariant list.nodes == nodes && list.repr == repr && list.Valid()
      invariant out.Valid() && out.lost >= old(out.lost) && Sized(repr, size)
      invariant expected == start + Total(Masters(slots[..i]), size)
      invariant Assigned(repr, Masters(slots[..i]), size, start)
      invariant out.asked == old(out.asked) + Table(slots[..i], size, start)
      decreases |nodes| - i
    {
      StepOfList(list, i);
      TableSnocAt(slots, size, start, i);
      expected := PutEntry(repr, slots, i, chip, out, size, start, expected);
      chip := chip.next;
      i := i + 1;
    }
    assert slots[..i] == slots;
  }

  lemma StartOfList(list: List)
    requires list.Valid()
    ensures list.head == if |list.nodes| > 0 then list.nodes[0] else null
  {
  }

  lemma StepOfList(list: List, i: nat)
    requires list.Valid() && i < |list.nodes|
    ensures list.nodes[i].next == if i + 1 < |list.nodes| then list.nodes[i + 1] else null
    ensures list.nodes[i] in list.repr
    ensures |SlotsOf(list.nodes)| == |list.nodes| && SlotsOf(list.nodes)[i] == SlotOf(list.nodes[i])
  {
    LinkedAt(list.nodes, list.head, i);
  }

  lemma NothingPlaced(slots: seq<Slot>, size: Sizes, start: nat)
    ensures Masters(slots[..0]) == [] && Total([], size) == 0 && Table(slots[..0], size, start) == []
  {
  }

  lemma TableSnocAt(slots: seq<Slot>, size: Sizes, start: nat, i: nat)
    requires i < |slots|
    ensures slots[i].master in Masters(slots[..i + 1])
    ensures Table(slots[..i + 1], size, start) == Table(slots[..i], size, start) + EntryOf(slots, i, size, start)
  {
    ListedAt(slots, i);
    TableSnoc(slots[..i + 1], size, start);
    assert slots[..i + 1][..i] == slots[..i];
  }

  lemma ListedAt(slots: seq<Slot>, i: nat)
    requires i < |slots|
    ensures slots[i].master in Masters(slots[..i + 1])
  {
    MasterListed(slots[..i + 1], i);
  }

  method WriteEntry(out: OutFile, id: ChipId, off: nat, size: nat)
    requires out.Valid()
    modifies out
    ensures out.Valid() && out.lost >= old(out.lost)
    ensures out.asked == old(out.asked) + EntryBytes(id, off, size)
  {
    WriteWords(out, EntryWords(id, off, size));
  }

  // ----- pass two: the DTB files

  /** Files by name as they are when they are opened; a missing name is a failing fopen. */
  type Readable = map<string, Blob>

  function Contents(files: map<ChipId, DtbFile>, onDisk: Readable): map<ChipId, Blob> {
    map m | m in files && files[m].name in onDisk :: onDisk[files[m].name]
  }

  /** The fread loop. */
  method CopyFile(out: OutFile, content: Blob)
    requires out.Valid()
    modifies out
    ensures out.Valid() && out.asked == old(out.asked) + content && out.lost >= old(out.lost)
  {
    var pos := 0;
    assert out.asked + [] == out.asked;
    while pos < |content|
      invariant pos <= |content| && out.Valid() && out.lost >= old(out.lost)
      invariant out.asked == old(out.asked) + content[..pos]
    {
      var n := if |content| - pos < COPY_BLK then |content| - pos else COPY_BLK;
      assert content[..pos + n] == content[..pos] + content[pos..pos + n];
      out.Write(content[pos..pos + n]);
      pos := pos + n;
    }
    assert content[..pos] == content;
  }

  ghost predicate Written(repr: set<Chip>, ms: seq<ChipId>)
    reads repr`wroteDtb
  {
    forall n :: n in repr && n.master == n ==> (n.wroteDtb <==> n.id in ms)
  }

  ghost predicate Named(repr: set<Chip>, files: map<ChipId, DtbFile>)
    reads repr`dtbFile
  {
    forall n :: n in repr && n.master == n ==> n.id in files && n.dtbFile == files[n.id].name
  }

  /** One file and its padding; refuses a file that cannot be opened or whose padded size changed. */
  method WriteFile(out: OutFile, name: string, size: nat, page: nat, onDisk: Readable) returns (ok: bool)
    requires out.Valid() && 0 < page <= 1024 * 1024
    modifies out
    ensures out.Valid() && out.lost >= old(out.lost)
    ensures ok <==> name in onDisk && Padded(|onDisk[name]|, page) == size
    ensures ok ==> out.asked == old(out.asked) + Region(onDisk[name], page)
  {
    if name !in onDisk {
      return false;
    }
    var content := onDisk[name];
    CopyFile(out, content);
    var padding := Padding(|content|, page);
    if |content| + padding != size {
      return false;
    }
    assert old(out.asked) + content + Zeros(padding) == old(out.asked) + (content + Zeros(padding));
    out.Write(Zeros(padding));
    return true;
  }

  lemma PayloadStep(slots: seq<Slot>, i: nat, size: Sizes, contents: map<ChipId, Blob>, page: nat)
    requires page > 0 && i < |slots| && Complete(slots[..i], size, contents, page)
    ensures var m := slots[i].master;
            if m in Masters(slots[..i]) then Masters(slots[..i + 1]) == Masters(slots[..i])
            else Masters(slots[..i + 1]) == Masters(slots[..i]) + [m]
    ensures Complete(slots[..i + 1], size, contents, page) <==> Fits(slots[i].master, size, contents, page)
    ensures Complete(slots[..i + 1], size, contents, page) ==>
              PayloadOf(slots[..i + 1], contents, page) ==
              PayloadOf(slots[..i], contents, page)
              + if slots[i].master in Masters(slots[..i]) then [] else Region(contents[slots[i].master], page)
  {
    MastersSnoc(slots, i);
    var ms, m := Masters(slots[..i]), slots[i].master;
    if m !in ms {
      assert (ms + [m])[..|ms|] == ms;
      assert m in ms + [m];
    }
  }

  predicate Fits(m: ChipId, size: Sizes, contents: map<ChipId, Blob>, page: nat)
    requires page > 0
  {
    m in contents && m in size && Padded(|contents[m]|, page) == size[m]
  }

  function PayloadOf(slots: seq<Slot>, contents: map<ChipId, Blob>, page: nat): Blob
    requires page > 0
  {
    if forall m :: m in Masters(slots) ==> m in contents then Payload(Masters(slots), contents, page) else []
  }

  /** What pass two adds for the i-th node. */
  ghost function FilePart(slots: seq<Slot>, i: nat, contents: map<ChipId, Blob>, page: nat): Blob
    requires page > 0 && i < |slots|
  {
    if slots[i].master in Masters(slots[..i]) || slots[i].master !in contents then []
    else Region(contents[slots[i].master], page)
  }

  /** The body of pass two: copy the file of a master that has not been written yet. */
  method PutFile(ghost repr: set<Chip>, ghost slots: seq<Slot>, ghost i: nat, chip: Chip, out: OutFile,
                 ghost files: map<ChipId, DtbFile>, ghost size: Sizes, page: nat, onDisk: Readable)
    returns (ok: bool)
    requires out.Valid() && chip in repr && i < |slots| && slots[i] == SlotOf(chip) && 0 < page <= 1024 * 1024
    requires Sized(repr, size) && Named(repr, files) && Written(repr, Masters(slots[..i]))
    requires Complete(slots[..i], size, Contents(files, onDisk), page)
    modifies out, repr`wroteDtb
    ensures out.Valid() && out.lost >= old(out.lost)
    ensures Written(repr, Masters(slots[..i + 1]))
    ensures ok <==> Complete(slots[..i + 1], size, Contents(files, onDisk), page)
    ensures ok ==> out.asked == old(out.asked) + FilePart(slots, i, Contents(files, onDisk), page)
  {
    PayloadStep(slots, i, size, Contents(files, onDisk), page);
    hide Complete;
    hide Masters;
    hide Region;
    hide Padded;
    var master := chip.master;
    if master.wroteDtb {
      assert master.id in Masters(slots[..i]);
      AlreadyFits(slots, i, size, Contents(files, onDisk), page);
      return true;
    }
    master.wroteDtb := true;
    ok := WriteFile(out, master.dtbFile, master.dtbSize, page, onDisk);
  }

  lemma AlreadyFits(slots: seq<Slot>, i: nat, size: Sizes, contents: map<ChipId, Blob>, page: nat)
    requires page > 0 && i < |slots| && Complete(slots[..i], size, contents, page)
    requires slots[i].master in Masters(slots[..i])
    ensures Fits(slots[i].master, size, contents, page)
  {
  }

  /** Pass two: the DTB files. It fails exactly when some master's file is gone or has another padded size. */
  method WriteFiles(list: List, out: OutFile, ghost s: Scan, page: nat, onDisk: Readable) returns (ok: bool)
    requires list.Valid() && out.Valid() && 0 < page <= 1024 * 1024 && SlotsOf(list.nodes) == s.slots
    requires Sized(list.repr, FileSizes(s)) && Named(list.repr, s.files) && Written(list.repr, [])
    modifies out, list.repr`wroteDtb
    ensures out.Valid() && out.lost >= old(out.lost)
    ensures ok <==> Complete(s.slots, FileSizes(s), Contents(s.files, onDisk), page)
    ensures ok ==> out.asked == old(out.asked) + Payload(Masters(s.slots), Contents(s.files, onDisk), page)
  {
    hide *;
    ghost var slots, nodes, repr, size := s.slots, list.nodes, list.repr, FileSizes(s);
    ghost var contents := Contents(s.files, onDisk);
    var chip := list.head;
    ghost var i := 0;
    ok := true;
    NothingCopied(slots, size, contents, page);
    StartOfList(list);
    assert out.asked + [] == out.asked;
    while chip != null
      invariant i <= |nodes| && chip == if i < |nodes| then nodes[i] else null
      invariant list.nodes == nodes && list.repr == repr && list.Valid()
      invariant out.Valid() && out.lost >= old(out.lost) && ok
      invariant Sized(repr, size) && Named(repr, s.files)
      invariant Written(repr, Masters(slots[..i])) && Complete(slots[..i], size, contents, page)
      invariant out.asked == old(out.asked) + PayloadOf(slots[..i], contents, page)
      decreases |nodes| - i
    {
      StepOfList(list, i);
      PayloadStep(slots, i, size, contents, page);
      ok := PutFile(repr, slots, i, chip, out, s.files, size, page, onDisk);
      if !ok {
        PrefixComplete(slots, i + 1, size, contents, page);
        return;
      }
      PartOf(slots, i, size, contents, page);
      chip := chip.next;
      i := i + 1;
    }
    assert slots[..i] == slots;
    AllCopied(slots, size, contents, page);
  }

  lemma NothingCopied(slots: seq<Slot>, size: Sizes, contents: map<ChipId, Blob>, page: nat)
    requires page > 0
    ensures Masters(slots[..0]) == [] && Complete(slots[..0], size, contents, page)
    ensures PayloadOf(slots[..0], contents, page) == []
  {
  }

  lemma PrefixComplete(slots: seq<Slot>, k: nat, size: Sizes, contents: map<ChipId, Blob>, page: nat)
    requires page > 0 && k <= |slots|
    ensures Complete(slots, size, contents, page) ==> Complete(slots[..k], size, contents, page)
  {
    MastersOfPrefix(slots, k);
  }

  lemma PartOf(slots: seq<Slot>, i: nat, size: Sizes, contents: map<ChipId, Blob>, page: nat)
    requires page > 0 && i < |slots|
    requires Complete(slots[..i], size, contents, page) && Complete(slots[..i + 1], size, contents, page)
    ensures PayloadOf(slots[..i + 1], contents, page) ==
            PayloadOf(slots[..i], contents, page) + FilePart(slots, i, contents, page)
  {
    PayloadStep(slots, i, size, contents, page);
  }

  lemma AllCopied(slots: seq<Slot>, size: Sizes, contents: map<ChipId, Blob>, page: nat)
    requires page > 0 && Complete(slots, size, contents, page)
    ensures PayloadOf(slots, contents, page) == Payload(Masters(slots), contents, page)
  {
  }

  // ----- main

  datatype Outcome = NothingFound | Kept | Removed

  /** The bound under which main's int and uint32_t arithmetic is exact. */
  predicate FitsInt(s: Scan, page: nat)
    requires page > 0
  {
    TableEnd(|s.slots|, page) + Total(Masters(s.slots), FileSizes(s)) < INT_LIMIT
  }

  /**
   * main: scan, layout, write. An image that is kept is the image of the scan, whatever write() did on the way
   * and even if files changed after they were scanned; and it is kept whenever no byte was lost and every
   * master's file still has its padded size.
   */
  method BuildImage(dir: seq<DirEntry>, page: nat, num: string -> u32, onDisk: Readable, out: OutFile)
    returns (r: Outcome)
    requires 0 < page <= 1024 * 1024 && FitsInt(ScanAll(dir, page, num), page)
    requires out.Valid() && out.asked == [] && out.lost == 0
    modifies out
    ensures var s := ScanAll(dir, page, num);
            var contents := Contents(s.files, onDisk);
            && (r == NothingFound <==> s.slots == [])
            && (r == Kept ==> Complete(s.slots, FileSizes(s), contents, page)
                              && out.data == Image(s.slots, FileSizes(s), contents, page))
            && (s.slots != [] && out.lost == 0 && Complete(s.slots, FileSizes(s), contents, page) ==> r == Kept)
  {
    var list, count := ScanDirectory(dir, page, num);
    if count == 0 {
      return NothingFound;
    }
    ghost var s := ScanAll(dir, page, num);
    r := WriteImage(list, count, out, s, page, onDisk);
  }

  /** Header, table, end marker and padding. */
  method WriteFront(list: List, count: nat, out: OutFile, ghost s: Scan, page: nat) returns (expected: nat)
    requires 0 < page <= 1024 * 1024 && FitsInt(s, page) && count == |s.slots|
    requires list.Valid() && SlotsOf(list.nodes) == s.slots && Sized(list.repr, FileSizes(s))
    requires Assigned(list.repr, [], FileSizes(s), TableEnd(count, page))
    requires out.Valid() && out.asked == []
    modifies out, list.repr`masterOffset
    ensures out.Valid() && out.lost >= old(out.lost)
    ensures out.asked == Front(s.slots, FileSizes(s), page)
    ensures expected == TableEnd(count, page) + Total(Masters(s.slots), FileSizes(s))
  {
    hide *;
    WriteHeader(out, count);
    var padding := Padding(12 + 40 * count + 4, page);
    var offset := 12 + 40 * count + 4 + padding;
    FrontIs(s, page);
    expected := WriteTable(list, out, FileSizes(s), offset);
    WriteGap(out, padding);
    assert [] + Header(count) == Header(count);
  }

  lemma FrontIs(s: Scan, page: nat)
    requires page > 0
    ensures var gap := 12 + 40 * |s.slots| + 4;
            && TableEnd(|s.slots|, page) == gap + Padding(gap, page)
            && Front(s.slots, FileSizes(s), page) ==
               Header(|s.slots|) + Table(s.slots, FileSizes(s), gap + Padding(gap, page)) + LE32(0)
               + Zeros(Padding(gap, page))
    ensures FitsInt(s, page) ==> TableEnd(|s.slots|, page) + Total(Masters(s.slots), FileSizes(s)) < INT_LIMIT
  {
  }

  method WriteHeader(out: OutFile, count: nat)
    requires out.Valid()
    modifies out
    ensures out.Valid() && out.lost >= old(out.lost) && out.asked == old(out.asked) + Header(count)
  {
    out.Write(QCDT_MAGIC);
    out.Write(LE32(QCDT_VERSION));
    out.Write(LE32(count));
    hide LE32;
    Assoc(old(out.asked), QCDT_MAGIC, LE32(QCDT_VERSION));
    Assoc(old(out.asked), QCDT_MAGIC + LE32(QCDT_VERSION), LE32(count));
  }

  method WriteGap(out: OutFile, padding: nat)
    requires out.Valid() && 0 < padding <= 1024 * 1024
    modifies out
    ensures out.Valid() && out.lost >= old(out.lost) && out.asked == old(out.asked) + LE32(0) + Zeros(padding)
  {
    out.Write(LE32(0));
    out.Write(Zeros(padding));
  }

  /**
   * A kept image read back: entry i carries the i-th id of the list, and an aligned offset and a size at which
   * the image holds the file that brought that id's master, followed by zeros.
   */
  lemma KeptImageReadsBack(s: Scan, page: nat, onDisk: Readable, i: nat)
    requires 0 < page && ScanValid(s, page) && FitsInt(s, page) && i < |s.slots|
    requires Complete(s.slots, FileSizes(s), Contents(s.files, onDisk), page)
    ensures var image := Image(s.slots, FileSizes(s), Contents(s.files, onDisk), page);
            && 12 + 40 * i + 40 <= |image|
            && ReadEntry(image, i).id == s.slots[i].id && ReadEntry(image, i).offset % page == 0
            && s.slots[i].master in s.files
            && var file := s.files[s.slots[i].master];
               && file.name in onDisk && ReadEntry(image, i).size == file.size
               && PointsAt(image, ReadEntry(image, i), onDisk[file.name], page)
  {
    ScanLayout(s, page, i, i);
    ImageRoundTrip(s.slots, FileSizes(s), Contents(s.files, onDisk), page, i);
    hide Image;
    hide Masters;
    hide OffsetOf;
    hide Total;
    hide Complete;
    hide ScanValid;
    hide ReadEntry;
    hide PointsAt;
  }

  /** The part of main after the scan. */
  method WriteImage(list: List, count: nat, out: OutFile, ghost s: Scan, page: nat, onDisk: Readable)
    returns (r: Outcome)
    requires 0 < page <= 1024 * 1024 && FitsInt(s, page)
    requires list.Valid() && Represents(list, s) && count == |list.nodes|
    requires out.Valid() && out.asked == [] && out.lost == 0
    modifies out, list.repr`masterOffset, list.repr`wroteDtb
    ensures var contents := Contents(s.files, onDisk);
            && r != NothingFound
            && (r == Kept ==> Complete(s.slots, FileSizes(s), contents, page)
                              && out.data == Image(s.slots, FileSizes(s), contents, page))
            && (out.lost == 0 && Complete(s.slots, FileSizes(s), contents, page) ==> r == Kept)
  {
    hide *;
    WriterReady(list, s, TableEnd(count, page));
    var expected := WriteFront(list, count, out, s, page);
    var ok := WriteFiles(list, out, s, page, onDisk);
    if !ok || expected != out.wrote {
      r := Removed;
    } else {
      r := Kept;
    }
    if ok {
      WhatWasAsked(s, Contents(s.files, onDisk), page);
      out.CountsMatch(expected);
    }
  }

  lemma WhatWasAsked(s: Scan, contents: map<ChipId, Blob>, page: nat)
    requires page > 0 && FitsInt(s, page) && Complete(s.slots, FileSizes(s), contents, page)
    ensures forall m :: m in Masters(s.slots) ==> m in contents
    ensures var asked := Front(s.slots, FileSizes(s), page) + Payload(Masters(s.slots), contents, page);
            && asked == Image(s.slots, FileSizes(s), contents, page)
            && |asked| == TableEnd(|s.slots|, page) + Total(Masters(s.slots), FileSizes(s)) < INT_LIMIT
  {
    PayloadLength(Masters(s.slots), FileSizes(s), contents, page);
    TableLength(s.slots, FileSizes(s), TableEnd(|s.slots|, page));
  }

  lemma WriterReady(list: List, s: Scan, start: nat)
    requires list.Valid() && Represents(list, s)
    ensures SlotsOf(list.nodes) == s.slots && |list.nodes| == |s.slots|
    ensures Sized(list.repr, FileSizes(s)) && Named(list.repr, s.files)
    ensures Written(list.repr, []) && Assigned(list.repr, [], FileSizes(s), start)
  {
    forall a, b | a in list.repr && b in list.repr && a.id == b.id ensures a == b {
      var i :| 0 <= i < |list.nodes| && list.nodes[i] == a;
      var j :| 0 <= j < |list.nodes| && list.nodes[j] == b;
      assert SlotsOf(list.nodes)[i].id == SlotsOf(list.nodes)[j].id;
    }
  }
}
