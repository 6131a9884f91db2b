/** make_image_tool.py: the bootloader meta image, an offset table in front of concatenated images. */
module MetaImage {
  import opened Bytes
  import opened Text

  const META_MAGIC: nat := 0xce1ad63c
  const VERSION_SIZE: nat := 64
  const NAME_SIZE: nat := 72
  const META_HEADER_SIZE: nat := 76
  const IMAGE_HEADER_SIZE: nat := 80

  // ----- the argument list

  /** An image by its key: where it is, and the partition that it is for. */
  datatype Source = Source(path: string, partition: string)

  datatype Request = Request(version: string, images: map<string, Source>)

  function ImageName(partition: string): string {
    if partition == "aboot" then "apps" else if partition == "sbl1" then "boot" else partition
  }

  /** The position of the first `-v`, wherever it stands. */
  function CutAt(args: seq<string>): (k: nat)
    ensures k <= |args| && (k < |args| ==> args[k] == "-v")
    ensures forall i :: 0 <= i < k ==> args[i] != "-v"
  {
    if args == [] || args[0] == "-v" then 0 else 1 + CutAt(args[1..])
  }

  /** The images named by the arguments: every second one is the path for the partition before it. */
  function Pair(args: seq<string>): map<string, Source> {
    if args == [] then map[]
    else
      var n := |args| - 1;
      if n % 2 == 0 then Pair(args[..n])
      else Pair(args[..n])[ImageName(args[n - 1]) := Source(args[n], args[n - 1])]
  }

  /** None when `-v` is the last argument, which Python reports as an IndexError. */
  function Requested(args: seq<string>): Option<Request> {
    var k := CutAt(args);
    if k == |args| then Some(Request("", Pair(args)))
    else if k + 1 < |args| then Some(Request(args[k + 1], Pair(args[..k])))
    else None
  }

  lemma PairStep(args: seq<string>, i: nat)
    requires i < |args|
    ensures Pair(args[..i + 1]) == if i % 2 == 0 then Pair(args[..i])
                                   else Pair(args[..i])[ImageName(args[i - 1]) := Source(args[i], args[i - 1])]
  {
    assert args[..i + 1][..i] == args[..i];
  }

  /** The pair that an image name stands for: the last one with this name. */
  ghost predicate LastPair(args: seq<string>, j: nat, k: string) {
    && 2 * j + 1 < |args| && ImageName(args[2 * j]) == k
    && forall i :: j < i && 2 * i + 1 < |args| ==> ImageName(args[2 * i]) != k
  }

  /** Every image name that comes out has a last pair. */
  lemma {:induction false} NamesHavePairs(args: seq<string>, k: string) returns (j: nat)
    requires k in Pair(args)
    ensures LastPair(args, j, k)
  {
    var n := |args| - 1;
    if n % 2 == 1 && ImageName(args[n - 1]) == k {
      j := n / 2;
    } else {
      j := NamesHavePairs(args[..n], k);
      SamePairs(args, j, k);
    }
  }

  /** Each image name gets the partition and the path of its last pair. */
  lemma {:induction false} LastPairWins(args: seq<string>, j: nat, k: string)
    requires LastPair(args, j, k)
    ensures k in Pair(args) && Pair(args)[k] == Source(args[2 * j + 1], args[2 * j])
  {
    hide ImageName;
    var n := |args| - 1;
    if 2 * j + 1 < n {
      if n % 2 == 1 {
        assert 2 * (n / 2) + 1 == n && j < n / 2;
        assert ImageName(args[2 * (n / 2)]) != k;
        assert 2 * (n / 2) == n - 1;
      }
      SamePairs(args, j, k);
      LastPairWins(args[..n], j, k);
    }
  }

  lemma SamePairs(args: seq<string>, j: nat, k: string)
    requires args != [] && (|args| % 2 == 1 || ImageName(args[|args| - 2]) != k)
    ensures LastPair(args, j, k) <==> LastPair(args[..|args| - 1], j, k)
  {
    hide ImageName;
    var front := args[..|args| - 1];
    if LastPair(front, j, k) {
      forall i | j < i && 2 * i + 1 < |args| ensures ImageName(args[2 * i]) != k {
        if 2 * i + 1 < |front| {
          assert front[2 * i] == args[2 * i];
        }
      }
    }
    if LastPair(args, j, k) {
      forall i | j < i && 2 * i + 1 < |front| ensures ImageName(front[2 * i]) != k {
        assert front[2 * i] == args[2 * i];
      }
    }
  }

  /** The loop over the command line. */
  method ParseArguments(args: seq<string>) returns (r: Option<Request>)
    ensures r == Requested(args)
  {
    var version, holder := "", "";
    var images: map<string, Source> := map[];
    var i := 0;
    while i < |args|
      invariant i <= |args| && version == "" && forall k :: 0 <= k < i ==> args[k] != "-v"
      invariant images == Pair(args[..i])
      invariant i % 2 == 1 ==> holder == args[i - 1]
    {
      if args[i] == "-v" {
        CutIs(args, i);
        if i + 1 == |args| {
          return None;
        }
        return Some(Request(args[i + 1], images));
      }
      PairStep(args, i);
      if i % 2 == 0 {
        holder := args[i];
      } else {
        images := images[ImageName(holder) := Source(args[i], holder)];
      }
      i := i + 1;
    }
    CutIs(args, i);
    assert args[..i] == args;
    return Some(Request(version, images));
  }

  lemma CutIs(args: seq<string>, i: nat)
    requires i <= |args| && (i < |args| ==> args[i] == "-v") && forall k :: 0 <= k < i ==> args[k] != "-v"
    ensures CutAt(args) == i
  {
  }

  /** Pairs followed by `-v` and a version: the pairs count, the version is taken, the rest is ignored. */
  lemma VersionArgument(pairs: seq<string>, version: string, rest: seq<string>)
    requires "-v" !in pairs
    ensures Requested(pairs + ["-v", version] + rest) == Some(Request(version, Pair(pairs)))
    ensures Requested(pairs + ["-v"]) == None
    ensures Requested(pairs) == Some(Request("", Pair(pairs)))
  {
    var full := pairs + ["-v", version] + rest;
    CutIs(full, |pairs|);
    CutIs(pairs + ["-v"], |pairs|);
    CutIs(pairs, |pairs|);
    assert full[..|pairs|] == pairs;
  }

  // ----- the image

  /** One image as it goes into the file. */
  datatype Item = Item(partition: string, content: Blob)

  datatype ImageHeader = ImageHeader(partition: string, start: nat, size: nat, content: Blob)

  /** Names are byte strings without NUL. */
  predicate Plain(s: string) {
    forall i :: 0 <= i < |s| ==> 0 < s[i] as int < 256
  }

  function Encode(s: string): (b: Blob)
    requires Plain(s)
    ensures |b| == |s|
  {
    seq(|s|, i requires 0 <= i < |s| => s[i] as int as byte)
  }

  /** A name in a field of n bytes. */
  function Field(s: string, n: nat): (b: Blob)
    requires Plain(s)
    ensures |s| <= n ==> |b| == n
  {
    Encode(s) + Zeros(if n > |s| then n - |s| else 0)
  }

  function FirstStart(n: nat): nat {
    META_HEADER_SIZE + IMAGE_HEADER_SIZE * n
  }

  function Headers(items: seq<Item>, start: nat): seq<ImageHeader> {
    if items == [] then []
    else
      var front, x := items[..|items| - 1], items[|items| - 1];
      Headers(front, start) + [ImageHeader(x.partition, start + |Contents(front)|, |x.content|, x.content)]
  }

  function Contents(items: seq<Item>): Blob {
    if items == [] then [] else Contents(items[..|items| - 1]) + items[|items| - 1].content
  }

  function HeaderBytes(h: ImageHeader): Blob
    requires Plain(h.partition)
  {
    Field(h.partition, NAME_SIZE) + LE32(h.start) + LE32(h.size)
  }

  predicate PlainItems(items: seq<Item>) {
    forall i :: 0 <= i < |items| ==> Plain(items[i].partition) && |items[i].partition| <= NAME_SIZE
  }

  function Table(items: seq<Item>, start: nat): Blob
    requires PlainItems(items)
  {
    if items == [] then []
    else
      var front, x := items[..|items| - 1], items[|items| - 1];
      Table(front, start)
      + HeaderBytes(ImageHeader(x.partition, start + |Contents(front)|, |x.content|, x.content))
  }

  function MetaHeader(version: string, n: nat): Blob
    requires Plain(version)
  {
    LE32(META_MAGIC) + LE16(1) + LE16(0) + Field(version, VERSION_SIZE) + LE16(META_HEADER_SIZE)
    + LE16(IMAGE_HEADER_SIZE * n)
  }

  function MetaBytes(version: string, items: seq<Item>): Blob
    requires Plain(version) && PlainItems(items)
  {
    MetaHeader(version, |items|) + Table(items, FirstStart(|items|)) + Contents(items)
  }

  // ----- the script

  /** What the images of a request hold; every path can be opened. */
  type Disk = map<string, Blob>

  function ItemsOf(order: seq<string>, images: map<string, Source>, disk: Disk): (items: seq<Item>)
    requires forall k :: k in order ==> k in images && images[k].path in disk
    ensures |items| == |order|
  {
    seq(|order|, i requires 0 <= i < |order| => Item(images[order[i]].partition, disk[images[order[i]].path]))
  }

  lemma ItemsSnoc(order: seq<string>, images: map<string, Source>, disk: Disk, i: nat)
    requires (forall k :: k in order ==> k in images && images[k].path in disk) && i < |order|
    ensures order[i] in images && images[order[i]].path in disk
    ensures forall k :: k in order[..i] ==> k in order
    ensures ItemsOf(order[..i + 1], images, disk) ==
            ItemsOf(order[..i], images, disk) + [Item(images[order[i]].partition, disk[images[order[i]].path])]
  {
    assert order[..i + 1] == order[..i] + [order[i]];
  }

  /** How Python walks a dictionary: every key once, in any order. */
  ghost predicate Walks(order: seq<string>, images: map<string, Source>) {
    && (forall i, j :: 0 <= i < j < |order| ==> order[i] != order[j])
    && (forall k :: k in order <==> k in images)
  }

  lemma {:induction false} WalkLength(order: seq<string>, images: map<string, Source>)
    requires Walks(order, images)
    ensures |order| == |images|
  {
    if order == [] {
      assert images.Keys == {};
    } else {
      var front, k := order[..|order| - 1], order[|order| - 1];
      assert order == front + [k];
      WalkLength(front, images - {k});
      assert images.Keys == (images - {k}).Keys + {k};
    }
  }

  lemma HeadersOfNone(start: nat)
    ensures Headers([], start) == [] && Contents([]) == []
  {
  }

  lemma NoItemsOf(images: map<string, Source>, disk: Disk)
    ensures ItemsOf([], images, disk) == []
  {
  }

  lemma HeadersSnoc(front: seq<Item>, x: Item, start: nat)
    ensures Headers(front + [x], start) ==
            Headers(front, start) + [ImageHeader(x.partition, start + |Contents(front)|, |x.content|, x.content)]
    ensures Contents(front + [x]) == Contents(front) + x.content
  {
    assert (front + [x])[..|front|] == front;
  }

  /** Pass one: open every image and give it its offset, the first one behind a table for the whole dictionary. */
  method AssignOffsets(order: seq<string>, images: map<string, Source>, disk: Disk) returns (infos: seq<ImageHeader>)
    requires Walks(order, images) && forall k :: k in images ==> images[k].path in disk
    ensures infos == Headers(ItemsOf(order, images, disk), FirstStart(|images|))
    ensures |infos| == |images|
  {
    hide Headers;
    hide Contents;
    hide FirstStart;
    hide ItemsOf;
    WalkLength(order, images);
    HeadersOfNone(FirstStart(|images|));
    NoItemsOf(images, disk);
    var offset := FirstStart(|images|);
    infos := [];
    for i := 0 to |order|
      invariant infos == Headers(ItemsOf(order[..i], images, disk), FirstStart(|images|))
      invariant offset == FirstStart(|images|) + |Contents(ItemsOf(order[..i], images, disk))|
    {
      ItemsSnoc(order, images, disk, i);
      var source := images[order[i]];
      var content := disk[source.path];
      HeadersSnoc(ItemsOf(order[..i], images, disk), Item(source.partition, content), FirstStart(|images|));
      infos := infos + [ImageHeader(source.partition, offset, |content|, content)];
      offset := offset + |content|;
    }
    assert order[..|order|] == order;
    HeadersLength(ItemsOf(order, images, disk), FirstStart(|images|));
  }

  lemma {:induction false} HeadersAreTable(items: seq<Item>, start: nat, i: nat)
    requires PlainItems(items) && i < |items|
    ensures |Headers(items, start)| == |items|
    ensures var h := Headers(items, start)[i];
            && Plain(h.partition) && h.content == items[i].content
            && Table(items[..i + 1], start) == Table(items[..i], start) + HeaderBytes(h)
            && Contents(items[..i + 1]) == Contents(items[..i]) + h.content
  {
    var front := items[..|items| - 1];
    HeadersLength(items, start);
    HeadersLength(front, start);
    if i < |items| - 1 {
      HeadersAreTable(front, start, i);
      assert front[..i + 1] == items[..i + 1] && front[..i] == items[..i];
    } else {
      assert items[..i + 1] == items && items[..i] == front;
    }
  }

  lemma {:induction false} HeadersLength(items: seq<Item>, start: nat)
    ensures |Headers(items, start)| == |items|
  {
    if items != [] {
      HeadersLength(items[..|items| - 1], start);
    }
  }

  lemma NoItems(start: nat)
    ensures Table([], start) == [] && Contents([]) == []
  {
  }

  /** Pass two: header, table, images. */
  method WriteMetaImage(version: string, n: nat, infos: seq<ImageHeader>, ghost items: seq<Item>) returns (out: Blob)
    requires Plain(version) && PlainItems(items) && infos == Headers(items, FirstStart(|items|)) && n == |items|
    ensures out == MetaBytes(version, items)
  {
    ghost var start := FirstStart(|items|);
    HeadersLength(items, start);
    NoItems(start);
    hide HeaderBytes;
    hide Table;
    hide Contents;
    hide Headers;
    hide Field;
    ghost var head := MetaHeader(version, |items|);
    out := LE32(META_MAGIC) + LE16(1) + LE16(0) + Field(version, VERSION_SIZE) + LE16(META_HEADER_SIZE)
           + LE16(IMAGE_HEADER_SIZE * n);
    for i := 0 to |infos|
      invariant out == head + Table(items[..i], start)
    {
      HeadersAreTable(items, start, i);
      Assoc(head, Table(items[..i], start), HeaderBytes(infos[i]));
      out := out + HeaderBytes(infos[i]);
    }
    assert items[..|items|] == items;
    for i := 0 to |infos|
      invariant out == head + Table(items, start) + Contents(items[..i])
    {
      HeadersAreTable(items, start, i);
      Assoc(head + Table(items, start), Contents(items[..i]), infos[i].content);
      out := out + infos[i].content;
    }
  }

  /** The whole script, for any order in which Python walks its dictionary. */
  method MakeImage(r: Request, order: seq<string>, disk: Disk) returns (out: Blob)
    requires Walks(order, r.images)
    requires forall k :: k in r.images ==> r.images[k].path in disk
    requires Plain(r.version) && PlainItems(ItemsOf(order, r.images, disk))
    ensures out == MetaBytes(r.version, ItemsOf(order, r.images, disk))
  {
    WalkLength(order, r.images);
    var infos := AssignOffsets(order, r.images, disk);
    out := WriteMetaImage(r.version, |r.images|, infos, ItemsOf(order, r.images, disk));
  }

  // ----- reading it back

  function UntilNul(b: Blob): string {
    if b == [] || b[0] == 0 then "" else [b[0] as int as char] + UntilNul(b[1..])
  }

  datatype MetaEntry = MetaEntry(partition: string, content: Blob)

  /** How many image headers the meta header announces. */
  function EntryCount(image: Blob): nat
    requires |image| >= META_HEADER_SIZE
  {
    FromLE16(image[74..76]) / IMAGE_HEADER_SIZE
  }

  /** Entry i, found through its own start offset and size; None when they point outside the file. */
  function ReadEntry(image: Blob, i: nat): Option<MetaEntry>
    requires META_HEADER_SIZE + IMAGE_HEADER_SIZE * i + IMAGE_HEADER_SIZE <= |image|
  {
    DecodeEntry(image, image[META_HEADER_SIZE + IMAGE_HEADER_SIZE * i..META_HEADER_SIZE + IMAGE_HEADER_SIZE * i + 80])
  }

  function DecodeEntry(image: Blob, b: Blob): Option<MetaEntry>
    requires |b| == IMAGE_HEADER_SIZE
  {
    var start, size := FromLE32(b[72..76]), FromLE32(b[76..80]);
    if start + size <= |image| then Some(MetaEntry(UntilNul(b[..72]), image[start..start + size])) else None
  }

  lemma {:induction false} NameRoundTrip(s: string, n: nat)
    requires Plain(s)
    ensures UntilNul(Encode(s) + Zeros(n)) == s
  {
    if s != [] {
      NameRoundTrip(s[1..], n);
      assert (Encode(s) + Zeros(n))[1..] == Encode(s[1..]) + Zeros(n);
      assert s == [s[0]] + s[1..];
    } else {
      assert n > 0 ==> (Encode(s) + Zeros(n))[0] == 0;
    }
  }

  lemma {:induction false} TableHolds(items: seq<Item>, start: nat, i: nat)
    requires PlainItems(items) && i < |items|
    ensures |Table(items, start)| == IMAGE_HEADER_SIZE * |items|
    ensures Table(items, start)[80 * i..80 * i + 80] ==
            HeaderBytes(ImageHeader(items[i].partition, start + |Contents(items[..i])|, |items[i].content|,
                                    items[i].content))
  {
    hide HeaderBytes;
    var front := items[..|items| - 1];
    TableLength(items, start);
    TableLength(front, start);
    if i < |items| - 1 {
      TableHolds(front, start, i);
      assert front[..i] == items[..i];
    } else {
      assert items[..i] == front;
    }
  }

  lemma {:induction false} TableLength(items: seq<Item>, start: nat)
    requires PlainItems(items)
    ensures |Table(items, start)| == IMAGE_HEADER_SIZE * |items|
  {
    if items != [] {
      TableLength(items[..|items| - 1], start);
    }
  }

  /** The real position of an image is where its header says it is. */
  lemma {:induction false} ContentsHold(items: seq<Item>, i: nat)
    requires i < |items|
    ensures |Contents(items[..i])| + |items[i].content| <= |Contents(items)|
    ensures Contents(items)[|Contents(items[..i])|..|Contents(items[..i])| + |items[i].content|] == items[i].content
  {
    var front := items[..|items| - 1];
    if i < |items| - 1 {
      ContentsHold(front, i);
      assert front[..i] == items[..i];
    } else {
      assert items[..i] == front;
    }
  }

  lemma EntryFields(h: ImageHeader)
    requires Plain(h.partition) && |h.partition| <= NAME_SIZE && h.start < U32_LIMIT && h.size < U32_LIMIT
    ensures var b := HeaderBytes(h);
            && |b| == IMAGE_HEADER_SIZE && UntilNul(b[..72]) == h.partition
            && FromLE32(b[72..76]) == h.start && FromLE32(b[76..80]) == h.size
  {
    hide UntilNul;
    hide FromLE32;
    hide LE32;
    var b := HeaderBytes(h);
    NameRoundTrip(h.partition, NAME_SIZE - |h.partition|);
    assert b[..72] == Field(h.partition, NAME_SIZE);
    assert b[72..76] == LE32(h.start) && b[76..80] == LE32(h.size);
    WordRoundTrip(h.start);
    WordRoundTrip(h.size);
  }

  /** A meta image parses back to the number of its images and to each partition name and content. */
  lemma MetaRoundTrip(version: string, items: seq<Item>, i: nat)
    requires Plain(version) && |version| <= VERSION_SIZE && PlainItems(items) && i < |items|
    requires IMAGE_HEADER_SIZE * |items| < 65536 && FirstStart(|items|) + |Contents(items)| < U32_LIMIT
    ensures var image := MetaBytes(version, items);
            && |image| >= META_HEADER_SIZE && EntryCount(image) == |items|
            && META_HEADER_SIZE + IMAGE_HEADER_SIZE * i + IMAGE_HEADER_SIZE <= |image|
            && ReadEntry(image, i) == Some(MetaEntry(items[i].partition, items[i].content))
            && FromLE32(image[..4]) == 0xce1ad63c && FromLE16(image[4..6]) == 1 && FromLE16(image[6..8]) == 0
            && UntilNul(image[8..72]) == version && FromLE16(image[72..74]) == 76
  {
    hide UntilNul;
    hide HeaderBytes;
    hide Table;
    hide Contents;
    hide MetaHeader;
    hide FromLE16;
    hide FromLE32;
    hide DecodeEntry;
    HeaderReadsBack(version, items);
    var image, start := MetaBytes(version, items), FirstStart(|items|);
    var head, table, body := MetaHeader(version, |items|), Table(items, start), Contents(items);
    TableHolds(items, start, i);
    ContentsHold(items, i);
    HeaderEnds(version, |items|, table + body);
    Assoc(head, table, body);
    var h := ImageHeader(items[i].partition, start + |Contents(items[..i])|, |items[i].content|, items[i].content);
    EntryFields(h);
    assert image == head + table + body;
    assert 80 * i + 80 <= |table| && h.start == |head| + |table| + |Contents(items[..i])|;
    hide *;
    EntryReads(head, table, body, i, HeaderBytes(h), |Contents(items[..i])|, h);
  }

  lemma EntryReads(head: Blob, table: Blob, body: Blob, i: nat, b: Blob, from: nat, h: ImageHeader)
    requires |head| == META_HEADER_SIZE && 80 * i + 80 <= |table| && table[80 * i..80 * i + 80] == b && |b| == 80
    requires UntilNul(b[..72]) == h.partition && FromLE32(b[72..76]) == h.start && FromLE32(b[76..80]) == h.size
    requires h.start == |head| + |table| + from && from + h.size <= |body| && body[from..from + h.size] == h.content
    ensures 76 + 80 * i + 80 <= |head + table + body|
    ensures ReadEntry(head + table + body, i) == Some(MetaEntry(h.partition, h.content))
  {
    hide UntilNul;
    hide FromLE32;
    BehindTable(head + table, body, from, h.size);
    SliceInside(head, table, body, 80 * i, 80 * i + 80);
  }

  lemma SliceInside(a: Blob, b: Blob, c: Blob, i: nat, j: nat)
    requires i <= j <= |b|
    ensures (a + b + c)[|a| + i..|a| + j] == b[i..j]
  {
  }

  lemma BehindTable(a: Blob, b: Blob, from: nat, n: nat)
    requires from + n <= |b|
    ensures (a + b)[|a| + from..|a| + from + n] == b[from..from + n]
  {
  }

  /** The bytes from `at` on are a name and then zeros, n bytes in all. */
  predicate HoldsName(image: Blob, at: nat, n: nat, name: string) {
    && at + n <= |image| && |name| <= n
    && (forall k :: 0 <= k < |name| ==> image[at + k] as int == name[k] as int)
    && (forall k :: at + |name| <= k < at + n ==> image[k] == 0)
  }

  /** The meta header read back: magic, versions 1 and 0, the version string, header size and table size. */
  lemma HeaderReadsBack(version: string, items: seq<Item>)
    requires Plain(version) && |version| <= VERSION_SIZE && PlainItems(items)
    requires IMAGE_HEADER_SIZE * |items| < 65536
    ensures var image := MetaBytes(version, items);
            && |image| == 76 + 80 * |items| + |Contents(items)|
            && FromLE32(image[..4]) == 0xce1ad63c && FromLE16(image[4..6]) == 1 && FromLE16(image[6..8]) == 0
            && HoldsName(image, 8, 64, version) && UntilNul(image[8..72]) == version
            && FromLE16(image[72..74]) == 76 && FromLE16(image[74..76]) == 80 * |items|
  {
    hide UntilNul;
    hide FromLE16;
    hide FromLE32;
    hide Table;
    hide Contents;
    hide LE16;
    hide LE32;
    hide Field;
    TableLength(items, FirstStart(|items|));
    var rest := Table(items, FirstStart(|items|)) + Contents(items);
    var image := MetaBytes(version, items);
    NameRoundTrip(version, VERSION_SIZE - |version|);
    FieldIs(version, VERSION_SIZE);
    Assoc(MetaHeader(version, |items|), Table(items, FirstStart(|items|)), Contents(items));
    HeaderFields(LE32(META_MAGIC), LE16(1), LE16(0), Field(version, VERSION_SIZE), LE16(META_HEADER_SIZE),
                 LE16(IMAGE_HEADER_SIZE * |items|), rest);
    NameAt(image, 8, 64, version);
    WordRoundTrip(META_MAGIC);
    WordRoundTrip(1);
    WordRoundTrip(0);
    WordRoundTrip(META_HEADER_SIZE);
    WordRoundTrip(IMAGE_HEADER_SIZE * |items|);
  }

  lemma FieldIs(name: string, n: nat)
    requires Plain(name) && |name| <= n
    ensures Field(name, n) == Encode(name) + Zeros(n - |name|)
  {
  }

  lemma HeaderFields(a: Blob, b: Blob, c: Blob, d: Blob, e: Blob, f: Blob, rest: Blob)
    requires |a| == 4 && |b| == 2 && |c| == 2 && |d| == 64 && |e| == 2 && |f| == 2
    ensures var image := a + b + c + d + e + f + rest;
            && image[..4] == a && image[4..6] == b && image[6..8] == c && image[8..72] == d
            && image[72..74] == e && image[74..76] == f
  {
  }

  lemma NameAt(image: Blob, at: nat, n: nat, name: string)
    requires at + n <= |image| && Plain(name) && |name| <= n
    requires image[at..at + n] == Encode(name) + Zeros(n - |name|)
    ensures HoldsName(image, at, n, name)
  {
    var field := image[at..at + n];
    assert forall k :: 0 <= k < n ==> image[at + k] == field[k];
    assert forall k :: at <= k < at + n ==> image[k] == field[k - at];
  }

  /** Header i as raw fields: the name padded with zeros, then the real position of the image, then its size. */
  lemma EntryIsRaw(version: string, items: seq<Item>, i: nat)
    requires Plain(version) && |version| <= VERSION_SIZE && PlainItems(items) && i < |items|
    requires IMAGE_HEADER_SIZE * |items| < 65536 && FirstStart(|items|) + |Contents(items)| < U32_LIMIT
    ensures var image, p, start := MetaBytes(version, items), 76 + 80 * i, 76 + 80 * |items| + |Contents(items[..i])|;
            && p + 80 <= |image| && HoldsName(image, p, 72, items[i].partition)
            && FromLE32(image[p + 72..p + 76]) == start && FromLE32(image[p + 76..p + 80]) == |items[i].content|
            && start + |items[i].content| <= |image| && image[start..start + |items[i].content|] == items[i].content
  {
    hide UntilNul;
    hide HeaderBytes;
    hide Table;
    hide Contents;
    hide MetaHeader;
    hide FromLE32;
    var image, start := MetaBytes(version, items), FirstStart(|items|);
    var head, table, body := MetaHeader(version, |items|), Table(items, start), Contents(items);
    TableHolds(items, start, i);
    ContentsHold(items, i);
    HeaderEnds(version, |items|, table + body);
    Assoc(head, table, body);
    var h := ImageHeader(items[i].partition, start + |Contents(items[..i])|, |items[i].content|, items[i].content);
    SliceInside(head, table, body, 80 * i, 80 * i + 80);
    BehindTable(head + table, body, |Contents(items[..i])|, |items[i].content|);
    assert image[76 + 80 * i..76 + 80 * i + 80] == HeaderBytes(h);
    hide *;
    RawEntry(image, 76 + 80 * i, h);
  }

  lemma RawEntry(image: Blob, p: nat, h: ImageHeader)
    requires p + 80 <= |image| && Plain(h.partition) && |h.partition| <= NAME_SIZE
    requires image[p..p + 80] == HeaderBytes(h) && h.start < U32_LIMIT && h.size < U32_LIMIT
    ensures HoldsName(image, p, 72, h.partition)
    ensures FromLE32(image[p + 72..p + 76]) == h.start && FromLE32(image[p + 76..p + 80]) == h.size
  {
    hide FromLE32;
    hide LE32;
    hide Field;
    var b := HeaderBytes(h);
    FieldIs(h.partition, NAME_SIZE);
    assert b[..72] == Field(h.partition, NAME_SIZE) && b[72..76] == LE32(h.start) && b[76..80] == LE32(h.size);
    SlicesOf(image, p, b);
    NameAt(image, p, 72, h.partition);
    WordRoundTrip(h.start);
    WordRoundTrip(h.size);
  }

  lemma SlicesOf(image: Blob, p: nat, b: Blob)
    requires p + 80 <= |image| && image[p..p + 80] == b
    ensures image[p..p + 72] == b[..72] && image[p + 72..p + 76] == b[72..76] && image[p + 76..p + 80] == b[76..80]
  {
    SliceOfSlice(image, p, p + 80, 0, 72);
    SliceOfSlice(image, p, p + 80, 72, 76);
    SliceOfSlice(image, p, p + 80, 76, 80);
  }

  /** From the command line to the file: the last pair with a name is an entry with its partition and its bytes. */
  lemma PairIsPacked(version: string, args: seq<string>, j: nat, k: string, order: seq<string>, disk: Disk)
    returns (i: nat)
    requires LastPair(args, j, k) && Walks(order, Pair(args)) && Plain(version) && |version| <= VERSION_SIZE
    requires forall n :: n in Pair(args) ==> Pair(args)[n].path in disk
    requires var items := ItemsOf(order, Pair(args), disk);
             PlainItems(items) && IMAGE_HEADER_SIZE * |items| < 65536
             && FirstStart(|items|) + |Contents(items)| < U32_LIMIT
    ensures args[2 * j + 1] in disk
    ensures var items := ItemsOf(order, Pair(args), disk); var image := MetaBytes(version, items);
            && i < |items| && META_HEADER_SIZE + IMAGE_HEADER_SIZE * i + IMAGE_HEADER_SIZE <= |image|
            && ReadEntry(image, i) == Some(MetaEntry(args[2 * j], disk[args[2 * j + 1]]))
  {
    LastPairWins(args, j, k);
    i :| 0 <= i < |order| && order[i] == k;
    MetaRoundTrip(version, ItemsOf(order, Pair(args), disk), i);
    hide MetaBytes;
    hide ReadEntry;
    hide Pair;
    hide Contents;
  }

  /** Two partitions share a dictionary key, so that the later one hides the earlier, only in two cases. */
  lemma SharedNames(p: string, q: string)
    ensures ImageName(p) == ImageName(q) <==>
            p == q || {p, q} == {"aboot", "apps"} || {p, q} == {"sbl1", "boot"}
  {
    assert "aboot"[0] == "apps"[0] == 'a' && "sbl1"[0] == 's' && "boot"[0] == 'b';
    assert |"aboot"| == 5 && |"apps"| == 4;
    if {p, q} == {"aboot", "apps"} {
      assert p in {"aboot", "apps"} && q in {"aboot", "apps"} && "aboot" in {p, q} && "apps" in {p, q};
    }
    if {p, q} == {"sbl1", "boot"} {
      assert p in {"sbl1", "boot"} && q in {"sbl1", "boot"} && "sbl1" in {p, q} && "boot" in {p, q};
    }
  }

  lemma HeaderEnds(version: string, n: nat, rest: Blob)
    requires Plain(version) && |version| <= VERSION_SIZE && IMAGE_HEADER_SIZE * n < 65536
    ensures |MetaHeader(version, n)| == META_HEADER_SIZE
    ensures EntryCount(MetaHeader(version, n) + rest) == n
  {
    var front := LE32(META_MAGIC) + LE16(1) + LE16(0) + Field(version, VERSION_SIZE) + LE16(META_HEADER_SIZE);
    assert MetaHeader(version, n) == front + LE16(IMAGE_HEADER_SIZE * n);
    assert (MetaHeader(version, n) + rest)[74..76] == LE16(IMAGE_HEADER_SIZE * n);
    WordRoundTrip(IMAGE_HEADER_SIZE * n);
  }
}
