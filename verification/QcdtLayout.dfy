/** The QCDT image as a function of the scanned list, and what reading it back gives. */
module QcdtLayout {
  import opened Bytes
  import opened ChipIds
  import opened DtbScan

  const QCDT_MAGIC: Blob := [0x51, 0x43, 0x44, 0x54]
  const QCDT_VERSION: nat := 3

  type Sizes = map<ChipId, nat>

  function SizeOf(size: Sizes, m: ChipId): nat {
    if m in size then size[m] else 0
  }

  /** The distinct masters, in the order in which the list first refers to them. */
  function Masters(slots: seq<Slot>): seq<ChipId> {
    if slots == [] then []
    else
      var front := Masters(slots[..|slots| - 1]);
      if slots[|slots| - 1].master in front then front else front + [slots[|slots| - 1].master]
  }

  function Total(ms: seq<ChipId>, size: Sizes): nat {
    if ms == [] then 0 else Total(ms[..|ms| - 1], size) + SizeOf(size, ms[|ms| - 1])
  }

  /** Where the region of a master starts when the regions are laid out one after the other. */
  function OffsetOf(ms: seq<ChipId>, size: Sizes, start: nat, m: ChipId): (off: nat)
    requires m in ms
    ensures off >= start
  {
    if m in ms[..|ms| - 1] then OffsetOf(ms[..|ms| - 1], size, start, m)
    else start + Total(ms[..|ms| - 1], size)
  }

  /** Header, table and end marker, padded to a page: where the first region goes. */
  function TableEnd(count: nat, page: nat): nat
    requires page > 0
  {
    Padded(12 + 40 * count + 4, page)
  }

  function EntryWords(id: ChipId, off: nat, size: nat): seq<nat> {
    [id.chipset, id.platform, id.subtype, id.revNum, id.pmic0, id.pmic1, id.pmic2, id.pmic3, off, size]
  }

  function EntryBytes(id: ChipId, off: nat, size: nat): (r: Blob)
    ensures |r| == 40
  {
    Words(EntryWords(id, off, size))
  }

  function Table(slots: seq<Slot>, size: Sizes, start: nat): Blob {
    if slots == [] then []
    else
      var x := slots[|slots| - 1];
      MasterListed(slots, |slots| - 1);
      Table(slots[..|slots| - 1], size, start)
      + EntryBytes(x.id, OffsetOf(Masters(slots), size, start, x.master), SizeOf(size, x.master))
  }

  function Region(content: Blob, page: nat): Blob
    requires page > 0
  {
    content + Zeros(Padding(|content|, page))
  }

  function Payload(ms: seq<ChipId>, contents: map<ChipId, Blob>, page: nat): Blob
    requires page > 0 && forall m :: m in ms ==> m in contents
  {
    if ms == [] then []
    else Payload(ms[..|ms| - 1], contents, page) + Region(contents[ms[|ms| - 1]], page)
  }

  function Header(count: nat): (r: Blob)
    ensures |r| == 12
  {
    QCDT_MAGIC + LE32(QCDT_VERSION) + LE32(count)
  }

  /** Everything before the first region. */
  function Front(slots: seq<Slot>, size: Sizes, page: nat): Blob
    requires page > 0
  {
    Header(|slots|) + Table(slots, size, TableEnd(|slots|, page)) + LE32(0)
    + Zeros(Padding(12 + 40 * |slots| + 4, page))
  }

  predicate Complete(slots: seq<Slot>, size: Sizes, contents: map<ChipId, Blob>, page: nat)
    requires page > 0
  {
    forall m :: m in Masters(slots) ==> m in contents && m in size && Padded(|contents[m]|, page) == size[m]
  }

  function Image(slots: seq<Slot>, size: Sizes, contents: map<ChipId, Blob>, page: nat): Blob
    requires page > 0 && Complete(slots, size, contents, page)
  {
    Front(slots, size, page) + Payload(Masters(slots), contents, page)
  }

  // ----- masters

  lemma {:induction false} MasterListed(slots: seq<Slot>, i: nat)
    requires i < |slots|
    ensures slots[i].master in Masters(slots)
  {
    if i < |slots| - 1 {
      MasterListed(slots[..|slots| - 1], i);
    }
  }

  lemma {:induction false} ListedIsMaster(slots: seq<Slot>, m: ChipId) returns (i: nat)
    requires m in Masters(slots)
    ensures i < |slots| && slots[i].master == m
  {
    var front := slots[..|slots| - 1];
    if m in Masters(front) {
      i := ListedIsMaster(front, m);
    } else {
      i := |slots| - 1;
    }
  }

  predicate NoRepeats(ms: seq<ChipId>) {
    forall i, j :: 0 <= i < j < |ms| ==> ms[i] != ms[j]
  }

  lemma {:induction false} MastersAreDistinct(slots: seq<Slot>)
    ensures NoRepeats(Masters(slots))
  {
    if slots != [] {
      MastersAreDistinct(slots[..|slots| - 1]);
    }
  }

  lemma {:induction false} MastersOfPrefix(slots: seq<Slot>, k: nat)
    requires k <= |slots|
    ensures Masters(slots[..k]) <= Masters(slots)
  {
    if k < |slots| {
      MastersOfPrefix(slots[..|slots| - 1], k);
      assert slots[..|slots| - 1][..k] == slots[..k];
    } else {
      assert slots[..k] == slots;
    }
  }

  // ----- offsets

  lemma {:induction false} OffsetOfPrefix(ms: seq<ChipId>, size: Sizes, start: nat, m: ChipId, k: nat)
    requires k <= |ms| && m in ms[..k]
    ensures OffsetOf(ms[..k], size, start, m) == OffsetOf(ms, size, start, m)
  {
    if k < |ms| {
      var front := ms[..|ms| - 1];
      assert front[..k] == ms[..k];
      assert m in front by {
        var i :| 0 <= i < k && ms[..k][i] == m;
        assert front[i] == m;
      }
      OffsetOfPrefix(front, size, start, m, k);
    } else {
      assert ms[..k] == ms;
    }
  }

  lemma {:induction false} OffsetInside(ms: seq<ChipId>, size: Sizes, start: nat, m: ChipId)
    requires m in ms
    ensures OffsetOf(ms, size, start, m) + SizeOf(size, m) <= start + Total(ms, size)
  {
    if m in ms[..|ms| - 1] {
      OffsetInside(ms[..|ms| - 1], size, start, m);
    } else {
      assert m == ms[|ms| - 1];
    }
  }

  /** Regions of distinct masters do not overlap. */
  lemma {:induction false} RegionsAreDisjoint(ms: seq<ChipId>, size: Sizes, start: nat, m: ChipId, n: ChipId)
    requires m in ms && n in ms && m != n
    ensures || OffsetOf(ms, size, start, m) + SizeOf(size, m) <= OffsetOf(ms, size, start, n)
            || OffsetOf(ms, size, start, n) + SizeOf(size, n) <= OffsetOf(ms, size, start, m)
  {
    var front := ms[..|ms| - 1];
    assert ms == front + [ms[|ms| - 1]];
    if m in front && n in front {
      RegionsAreDisjoint(front, size, start, m, n);
    } else if m in front {
      OffsetInside(front, size, start, m);
    } else {
      OffsetInside(front, size, start, n);
    }
  }

  /** Every byte position after the table belongs to some region: there is no gap. */
  lemma {:induction false} RegionsLeaveNoGap(ms: seq<ChipId>, size: Sizes, start: nat, p: nat) returns (m: ChipId)
    requires NoRepeats(ms) && start <= p < start + Total(ms, size)
    ensures m in ms && OffsetOf(ms, size, start, m) <= p < OffsetOf(ms, size, start, m) + SizeOf(size, m)
  {
    var front := ms[..|ms| - 1];
    assert ms == front + [ms[|ms| - 1]];
    if p < start + Total(front, size) {
      m := RegionsLeaveNoGap(front, size, start, p);
    } else {
      m := ms[|ms| - 1];
      assert m !in front;
    }
  }

  lemma SumIsAligned(a: nat, b: nat, page: nat)
    requires page > 0 && a % page == 0 && b % page == 0
    ensures (a + b) % page == 0
  {
    var i, j := a / page, b / page;
    assert a == i * page && b == j * page;
    assert a + b == (i + j) * page;
    MultipleIsAligned(i + j, page);
  }

  lemma {:induction false} TotalIsAligned(ms: seq<ChipId>, size: Sizes, start: nat, page: nat)
    requires page > 0 && start % page == 0 && forall m :: m in ms ==> SizeOf(size, m) % page == 0
    ensures (start + Total(ms, size)) % page == 0
  {
    if ms != [] {
      var front := ms[..|ms| - 1];
      TotalIsAligned(front, size, start, page);
      SumIsAligned(start + Total(front, size), SizeOf(size, ms[|ms| - 1]), page);
    }
  }

  lemma {:induction false} OffsetsAreAligned(ms: seq<ChipId>, size: Sizes, start: nat, page: nat, m: ChipId)
    requires page > 0 && start % page == 0 && forall m :: m in ms ==> SizeOf(size, m) % page == 0
    requires m in ms
    ensures OffsetOf(ms, size, start, m) % page == 0
  {
    var front := ms[..|ms| - 1];
    if m in front {
      OffsetsAreAligned(front, size, start, page, m);
    } else {
      TotalIsAligned(front, size, start, page);
    }
  }

  /** The layout of a scan: aligned regions, one per master, that tile the file behind the table. */
  lemma ScanLayout(s: Scan, page: nat, i: nat, j: nat)
    requires page > 0 && ScanValid(s, page) && i < |s.slots| && j < |s.slots|
    ensures var ms, size := Masters(s.slots), FileSizes(s);
            var start := TableEnd(|s.slots|, page);
            var m, n := s.slots[i].master, s.slots[j].master;
            && m in ms && n in ms
            && start % page == 0
            && OffsetOf(ms, size, start, m) % page == 0
            && OffsetOf(ms, size, start, m) + SizeOf(size, m) <= start + Total(ms, size)
            && (OffsetOf(ms, size, start, m) == OffsetOf(ms, size, start, n) <==> m == n)
  {
    hide ScanValid;
    hide Masters;
    hide OffsetOf;
    hide Total;
    var ms, size := Masters(s.slots), FileSizes(s);
    var start := TableEnd(|s.slots|, page);
    var m, n := s.slots[i].master, s.slots[j].master;
    MasterListed(s.slots, i);
    MasterListed(s.slots, j);
    MasterSizes(s, page);
    OffsetsAreAligned(ms, size, start, page, m);
    OffsetInside(ms, size, start, m);
    if m != n {
      RegionsAreDisjoint(ms, size, start, m, n);
    }
  }

  lemma MasterSizes(s: Scan, page: nat)
    requires page > 0 && ScanValid(s, page)
    ensures forall m :: m in Masters(s.slots) ==>
              m in FileSizes(s) && SizeOf(FileSizes(s), m) > 0 && SizeOf(FileSizes(s), m) % page == 0
  {
    forall m | m in Masters(s.slots)
      ensures m in FileSizes(s) && SizeOf(FileSizes(s), m) > 0 && SizeOf(FileSizes(s), m) % page == 0
    {
      var i := ListedIsMaster(s.slots, m);
      assert OwnMaster(s, m);
    }
  }

  function FileSizes(s: Scan): Sizes {
    map m | m in s.files :: s.files[m].size
  }

  // ----- reading the image back

  lemma {:induction false} PayloadLength(ms: seq<ChipId>, size: Sizes, contents: map<ChipId, Blob>, page: nat)
    requires page > 0
    requires forall m :: m in ms ==> m in contents && m in size && Padded(|contents[m]|, page) == size[m]
    ensures |Payload(ms, contents, page)| == Total(ms, size)
  {
    if ms != [] {
      PayloadLength(ms[..|ms| - 1], size, contents, page);
    }
  }

  lemma {:induction false} PayloadHoldsRegion(
      ms: seq<ChipId>, size: Sizes, contents: map<ChipId, Blob>, page: nat, front: Blob, m: ChipId)
    requires page > 0 && m in ms
    requires forall m :: m in ms ==> m in contents && m in size && Padded(|contents[m]|, page) == size[m]
    ensures var off := OffsetOf(ms, size, |front|, m);
            var all := front + Payload(ms, contents, page);
            off + size[m] <= |all| && all[off..off + size[m]] == Region(contents[m], page)
  {
    var init, last := ms[..|ms| - 1], ms[|ms| - 1];
    var body, tail := Payload(init, contents, page), Region(contents[last], page);
    PayloadLength(init, size, contents, page);
    assert front + (body + tail) == front + body + tail;
    if m in init {
      PayloadHoldsRegion(init, size, contents, page, front, m);
      var off := OffsetOf(init, size, |front|, m);
      assert (front + body + tail)[off..off + size[m]] == (front + body)[off..off + size[m]];
    } else {
      assert m == last;
      FieldAfter(front + body, tail, []);
      assert front + body + tail + [] == front + body + tail;
    }
  }

  lemma {:induction false} TableLength(slots: seq<Slot>, size: Sizes, start: nat)
    ensures |Table(slots, size, start)| == 40 * |slots|
  {
    if slots != [] {
      TableLength(slots[..|slots| - 1], size, start);
    }
  }

  lemma {:induction false} TableHoldsEntry(slots: seq<Slot>, size: Sizes, start: nat, i: nat)
    requires i < |slots| && slots[i].master in Masters(slots)
    ensures |Table(slots, size, start)| == 40 * |slots|
    ensures Table(slots, size, start)[40 * i..40 * i + 40] ==
            EntryBytes(slots[i].id, OffsetOf(Masters(slots), size, start, slots[i].master),
                       SizeOf(size, slots[i].master))
  {
    hide EntryBytes;
    hide Masters;
    var front := slots[..|slots| - 1];
    TableLength(slots, size, start);
    TableLength(front, size, start);
    TableSnoc(slots, size, start);
    hide Table;
    if i < |slots| - 1 {
      MasterListed(front, i);
      TableHoldsEntry(front, size, start, i);
      MastersOfPrefix(slots, |slots| - 1);
      var k := |Masters(front)|;
      assert Masters(slots)[..k] == Masters(front);
      OffsetOfPrefix(Masters(slots), size, start, slots[i].master, k);
      assert front[i] == slots[i];
    }
  }

  lemma TableSnoc(slots: seq<Slot>, size: Sizes, start: nat)
    requires slots != []
    ensures var x := slots[|slots| - 1];
            && x.master in Masters(slots)
            && Table(slots, size, start) ==
               Table(slots[..|slots| - 1], size, start)
               + EntryBytes(x.id, OffsetOf(Masters(slots), size, start, x.master), SizeOf(size, x.master))
  {
    MasterListed(slots, |slots| - 1);
  }

  /** One table entry as a reader of the image sees it. */
  datatype Entry = Entry(id: ChipId, offset: nat, size: nat)

  function ReadEntry(image: Blob, i: nat): Entry
    requires 12 + 40 * i + 40 <= |image|
  {
    DecodeEntry(image[12 + 40 * i..12 + 40 * i + 40])
  }

  function DecodeEntry(b: Blob): Entry
    requires |b| == 40
  {
    Entry(ChipId(WordAt(b, 0), WordAt(b, 1), WordAt(b, 2), WordAt(b, 3),
                 WordAt(b, 4), WordAt(b, 5), WordAt(b, 6), WordAt(b, 7)),
          WordAt(b, 8), WordAt(b, 9))
  }

  /** The bytes that an entry points at are a content and zeros behind it. */
  ghost predicate PointsAt(image: Blob, e: Entry, content: Blob, page: nat)
    requires page > 0
  {
    e.offset + e.size <= |image| && image[e.offset..e.offset + e.size] == content + Zeros(Padding(|content|, page))
  }

  lemma EntryRoundTrip(id: ChipId, off: u32, size: u32)
    ensures DecodeEntry(EntryBytes(id, off, size)) == Entry(id, off, size)
  {
    hide Words;
    hide WordAt;
    forall k | 0 <= k < 10 ensures WordAt(EntryBytes(id, off, size), k) == EntryWords(id, off, size)[k] {
      WordsRoundTrip(EntryWords(id, off, size), k);
    }
  }

  /**
   * Reading entry i of an image gives the i-th id of the list, and an offset and a size at which the image
   * holds exactly the DTB of that id's master, zero-padded: the writing pass meets every offset the layout
   * pass assigned.
   */
  lemma ImageRoundTrip(slots: seq<Slot>, size: Sizes, contents: map<ChipId, Blob>, page: nat, i: nat)
    requires page > 0 && Complete(slots, size, contents, page) && i < |slots|
    requires TableEnd(|slots|, page) + Total(Masters(slots), size) < 0x8000_0000
    ensures var image := Image(slots, size, contents, page);
            && image[..4] == ['Q' as int as byte, 'C' as int as byte, 'D' as int as byte, 'T' as int as byte]
            && FromLE32(image[4..8]) == 3 && FromLE32(image[8..12]) == |slots|
            && 12 + 40 * i + 40 <= |image|
            && var e := ReadEntry(image, i);
               && e.id == slots[i].id
               && slots[i].master in Masters(slots) && slots[i].master in size && e.size == size[slots[i].master]
               && e.offset == OffsetOf(Masters(slots), size, TableEnd(|slots|, page), slots[i].master)
               && slots[i].master in contents && PointsAt(image, e, contents[slots[i].master], page)
  {
    hide EntryBytes;
    hide ReadEntry;
    hide Payload;
    hide Masters;
    hide Table;
    hide OffsetOf;
    hide Total;
    var ms, start, m := Masters(slots), TableEnd(|slots|, page), slots[i].master;
    var front, image := Front(slots, size, page), Image(slots, size, contents, page);
    MasterListed(slots, i);
    TableHoldsEntry(slots, size, start, i);
    OffsetInside(ms, size, start, m);
    PayloadHoldsRegion(ms, size, contents, page, front, m);
    var rest := LE32(0) + Zeros(Padding(12 + 40 * |slots| + 4, page)) + Payload(ms, contents, page);
    assert image == Header(|slots|) + Table(slots, size, start) + rest;
    assert image == Header(|slots|) + (Table(slots, size, start) + rest);
    HeaderRoundTrip(|slots|, Table(slots, size, start) + rest);
    EntryReads(Header(|slots|), Table(slots, size, start), rest, i, slots[i].id, OffsetOf(ms, size, start, m), size[m]);
  }

  /** An entry is ten words: the eight fields of the id, then offset and size. */
  lemma EntryIsTenWords(image: Blob, i: nat)
    requires 12 + 40 * i + 40 <= |image|
    ensures var e, p := ReadEntry(image, i), 12 + 40 * i;
            && FromLE32(image[p..p + 4]) == e.id.chipset && FromLE32(image[p + 4..p + 8]) == e.id.platform
            && FromLE32(image[p + 8..p + 12]) == e.id.subtype && FromLE32(image[p + 12..p + 16]) == e.id.revNum
            && FromLE32(image[p + 16..p + 20]) == e.id.pmic0 && FromLE32(image[p + 20..p + 24]) == e.id.pmic1
            && FromLE32(image[p + 24..p + 28]) == e.id.pmic2 && FromLE32(image[p + 28..p + 32]) == e.id.pmic3
            && FromLE32(image[p + 32..p + 36]) == e.offset && FromLE32(image[p + 36..p + 40]) == e.size
  {
    hide FromLE32;
    var p := 12 + 40 * i;
    forall k: nat | k < 10 {
      WordOfEntry(image, p, k);
    }
    assert WordAt(image[p..p + 40], 0) == FromLE32(image[p..p + 4]);
  }

  lemma WordOfEntry(image: Blob, p: nat, k: nat)
    requires p + 40 <= |image| && k < 10
    ensures WordAt(image[p..p + 40], k) == FromLE32(image[p + 4 * k..p + 4 * k + 4])
  {
    SliceOfSlice(image, p, p + 40, 4 * k, 4 * k + 4);
  }

  /** Behind the table come the end marker and zeros, up to the page on which the first region starts. */
  lemma TableIsClosed(slots: seq<Slot>, size: Sizes, contents: map<ChipId, Blob>, page: nat)
    requires page > 0 && Complete(slots, size, contents, page)
    ensures var image, start, end := Image(slots, size, contents, page), TableEnd(|slots|, page), 12 + 40 * |slots|;
            && end + 4 < start <= end + 4 + page && start % page == 0
            && |image| == start + Total(Masters(slots), size)
            && (forall k :: end <= k < start ==> image[k] == 0)
  {
    hide *;
    var start := TableEnd(|slots|, page);
    TableStart(|slots|, page);
    TableLength(slots, size, start);
    EndMarkerIsZero();
    CompleteMeans(slots, size, contents, page);
    PayloadLength(Masters(slots), size, contents, page);
    ZerosBetween(Header(|slots|) + Table(slots, size, start), LE32(0), Zeros(Padding(12 + 40 * |slots| + 4, page)),
                 Payload(Masters(slots), contents, page));
  }

  lemma TableStart(count: nat, page: nat)
    requires page > 0
    ensures TableEnd(count, page) == 12 + 40 * count + 4 + Padding(12 + 40 * count + 4, page)
    ensures TableEnd(count, page) % page == 0
  {
  }

  lemma CompleteMeans(slots: seq<Slot>, size: Sizes, contents: map<ChipId, Blob>, page: nat)
    requires page > 0 && Complete(slots, size, contents, page)
    ensures forall m :: m in Masters(slots) ==> m in contents && m in size && Padded(|contents[m]|, page) == size[m]
    ensures Image(slots, size, contents, page) ==
            Header(|slots|) + Table(slots, size, TableEnd(|slots|, page)) + LE32(0)
            + Zeros(Padding(12 + 40 * |slots| + 4, page)) + Payload(Masters(slots), contents, page)
  {
    hide Table;
    hide Payload;
    hide Masters;
  }

  lemma EndMarkerIsZero()
    ensures LE32(0) == [0, 0, 0, 0]
  {
  }

  lemma ZerosBetween(a: Blob, b: Blob, c: Blob, d: Blob)
    requires (forall i :: 0 <= i < |b| ==> b[i] == 0) && (forall i :: 0 <= i < |c| ==> c[i] == 0)
    ensures forall k :: |a| <= k < |a| + |b| + |c| ==> (a + b + c + d)[k] == 0
  {
  }

  /** The first region starts where the table ends, and regions follow in the order of first reference. */
  lemma OffsetsFollowList(slots: seq<Slot>, size: Sizes, start: nat, i: nat, j: nat)
    requires i <= j < |slots| && forall k :: 0 <= k < j ==> slots[k].master != slots[j].master
    ensures slots[0].master in Masters(slots) && OffsetOf(Masters(slots), size, start, slots[0].master) == start
    ensures slots[i].master in Masters(slots) && slots[j].master in Masters(slots)
    ensures i < j ==> OffsetOf(Masters(slots), size, start, slots[i].master) + SizeOf(size, slots[i].master)
                      <= OffsetOf(Masters(slots), size, start, slots[j].master)
  {
    MasterListed(slots, i);
    MasterListed(slots, j);
    MasterListed(slots, 0);
    FirstOffset(slots, size, start);
    if i < j {
      MasterAppears(slots, j);
      assert slots[..j][i] == slots[i];
      MasterListed(slots[..j], i);
      LaterOffset(Masters(slots), |Masters(slots[..j])|, size, start, slots[i].master);
    }
  }

  /** A master that is met for the first time stands right behind those met before. */
  lemma MasterAppears(slots: seq<Slot>, j: nat)
    requires j < |slots| && forall k :: 0 <= k < j ==> slots[k].master != slots[j].master
    ensures Masters(slots[..j]) <= Masters(slots) && |Masters(slots[..j])| < |Masters(slots)|
    ensures Masters(slots)[|Masters(slots[..j])|] == slots[j].master
    ensures slots[j].master !in Masters(slots[..j])
  {
    NotMaster(slots[..j], slots[j].master);
    MastersOfPrefix(slots, j + 1);
    MastersOfPrefix(slots, j);
    assert slots[..j + 1][..j] == slots[..j];
    assert Masters(slots[..j + 1]) == Masters(slots[..j]) + [slots[j].master];
  }

  lemma {:induction false} NotMaster(slots: seq<Slot>, m: ChipId)
    requires forall k :: 0 <= k < |slots| ==> slots[k].master != m
    ensures m !in Masters(slots)
  {
    if slots != [] {
      NotMaster(slots[..|slots| - 1], m);
    }
  }

  lemma LaterOffset(ms: seq<ChipId>, n: nat, size: Sizes, start: nat, m: ChipId)
    requires n < |ms| && m in ms[..n] && ms[n] !in ms[..n]
    ensures m in ms && ms[n] in ms
    ensures OffsetOf(ms, size, start, m) + SizeOf(size, m) <= OffsetOf(ms, size, start, ms[n])
  {
    var upto := ms[..n + 1];
    assert upto[..n] == ms[..n] && upto[n] == ms[n];
    OffsetOfPrefix(ms, size, start, m, n + 1);
    OffsetOfPrefix(ms, size, start, ms[n], n + 1);
    OffsetOfPrefix(upto, size, start, m, n);
    OffsetInside(ms[..n], size, start, m);
  }

  lemma FirstOffset(slots: seq<Slot>, size: Sizes, start: nat)
    requires slots != []
    ensures slots[0].master in Masters(slots)
    ensures OffsetOf(Masters(slots), size, start, slots[0].master) == start
  {
    MasterListed(slots, 0);
    MastersOfPrefix(slots, 1);
    assert slots[..1][..0] == [];
    assert Masters(slots)[..1] == Masters(slots[..1]) == [slots[0].master];
    OffsetOfPrefix(Masters(slots), size, start, slots[0].master, 1);
  }

  lemma EntryReads(header: Blob, table: Blob, rest: Blob, i: nat, id: ChipId, off: u32, size: u32)
    requires |header| == 12 && 40 * i + 40 <= |table| && table[40 * i..40 * i + 40] == EntryBytes(id, off, size)
    ensures 12 + 40 * i + 40 <= |header + table + rest|
    ensures ReadEntry(header + table + rest, i) == Entry(id, off, size)
  {
    hide EntryBytes;
    hide DecodeEntry;
    SliceBehind(header, table, rest, 40 * i, 40 * i + 40);
    EntryRoundTrip(id, off, size);
  }

  lemma SliceBehind(a: Blob, b: Blob, c: Blob, i: nat, j: nat)
    requires i <= j <= |b|
    ensures (a + b + c)[|a| + i..|a| + j] == b[i..j]
  {
  }

  lemma ThreeFields(a: Blob, b: Blob, c: Blob, rest: Blob)
    requires |a| == 4 && |b| == 4 && |c| == 4
    ensures (a + b + c + rest)[..4] == a && (a + b + c + rest)[4..8] == b && (a + b + c + rest)[8..12] == c
  {
  }

  lemma HeaderRoundTrip(count: u32, rest: Blob)
    ensures var image := Header(count) + rest;
            && image[..4] == ['Q' as int as byte, 'C' as int as byte, 'D' as int as byte, 'T' as int as byte]
            && FromLE32(image[4..8]) == 3 && FromLE32(image[8..12]) == count
  {
    hide LE32;
    hide FromLE32;
    ThreeFields(QCDT_MAGIC, LE32(QCDT_VERSION), LE32(count), rest);
    WordRoundTrip(QCDT_VERSION);
    WordRoundTrip(count);
  }
}
