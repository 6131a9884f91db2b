/** getChipInfo: token grouping on the tag lines of a decompiled DTB, and the cross product of the groups. */
module TagLines {
  import opened Bytes
  import opened ChipIds
  import opened Text

  const DT_TAG := "qcom,msm-id = <"
  const BOARD_TAG := "qcom,board-id = <"
  const PMIC_TAG := "qcom,pmic-id = <"

  const BLANKS: set<char> := {' ', '\t'}

  datatype MsmId = MsmId(chipset: u32, revNum: u32)
  datatype BoardId = BoardId(platform: u32, subtype: u32)
  datatype PmicId = PmicId(pmic0: u32, pmic1: u32, pmic2: u32, pmic3: u32)

  const NO_PMIC := PmicId(0, 0, 0, 0)

  // ----- token groups

  predicate Closes(tok: string) {
    tok != [] && tok[0] == '>'
  }

  /** The numbers before the first token that starts with `>`; `num` is strtoul with base 0. */
  function Numbers(toks: seq<string>, num: string -> u32): seq<u32> {
    if toks == [] || Closes(toks[0]) then [] else [num(toks[0])] + Numbers(toks[1..], num)
  }

  /** Consecutive groups of n, without the trailing partial group. */
  function Groups(xs: seq<u32>, n: nat): seq<seq<u32>>
    requires n > 0
  {
    if |xs| < n then [] else [xs[..n]] + Groups(xs[n..], n)
  }

  function LineGroups(text: string, n: nat, num: string -> u32): seq<seq<u32>>
    requires n > 0
  {
    Groups(Numbers(Tokens(text, BLANKS), num), n)
  }

  function Flatten(gs: seq<seq<u32>>): seq<u32> {
    if gs == [] then [] else gs[0] + Flatten(gs[1..])
  }

  predicate AllOfSize(gs: seq<seq<u32>>, n: nat) {
    forall k :: 0 <= k < |gs| ==> |gs[k]| == n
  }

  /** The groups have n numbers each, follow one another from the start, and leave fewer than n over. */
  lemma {:induction false} GroupsTileTheNumbers(xs: seq<u32>, n: nat)
    requires n > 0
    ensures AllOfSize(Groups(xs, n), n)
    ensures Flatten(Groups(xs, n)) <= xs && |xs| - |Flatten(Groups(xs, n))| < n
    decreases |xs|
  {
    if |xs| >= n {
      GroupsTileTheNumbers(xs[n..], n);
      assert xs == xs[..n] + xs[n..];
      assert Groups(xs, n)[1..] == Groups(xs[n..], n);
    }
  }

  lemma NumbersStep(toks: seq<string>, k: nat, num: string -> u32)
    requires k < |toks| && !Closes(toks[k])
    ensures Numbers(toks[k..], num) == [num(toks[k])] + Numbers(toks[k + 1..], num)
  {
    assert toks[k..][1..] == toks[k + 1..];
  }

  /** One pass of the inner loop over the token cursor: the next n numbers, or the end of the entry list. */
  method ReadGroup(toks: seq<string>, n: nat, num: string -> u32, from: nat)
    returns (data: seq<u32>, valid: bool, next: nat)
    requires n > 0 && from <= |toks|
    ensures from <= next <= |toks|
    ensures valid ==> next > from && |data| == n && Numbers(toks[from..], num) == data + Numbers(toks[next..], num)
    ensures !valid ==> |Numbers(toks[from..], num)| < n
  {
    data, valid, next := [], true, from;
    while |data| < n
      invariant |data| <= n && from <= next <= |toks| && |data| == next - from
      invariant Numbers(toks[from..], num) == data + Numbers(toks[next..], num)
    {
      if next == |toks| || Closes(toks[next]) {
        return data, false, next;
      }
      NumbersStep(toks, next, num);
      data, next := data + [num(toks[next])], next + 1;
    }
  }

  /** The grouping loops of getChipInfo, which differ only in the group size. */
  method ReadGroups(text: string, n: nat, num: string -> u32) returns (groups: seq<seq<u32>>)
    requires n > 0
    ensures groups == LineGroups(text, n, num)
  {
    var toks := Tokenize(text, BLANKS);
    groups := [];
    var k := 0;
    ghost var all := Numbers(toks, num);
    assert toks[0..] == toks;
    while true
      invariant k <= |toks|
      invariant groups + Groups(Numbers(toks[k..], num), n) == Groups(all, n)
      decreases |toks| - k
    {
      var data, valid, next := ReadGroup(toks, n, num, k);
      if !valid {
        return;
      }
      GroupsStep(data, Numbers(toks[next..], num), n);
      groups, k := groups + [data], next;
    }
  }

  lemma GroupsStep(data: seq<u32>, rest: seq<u32>, n: nat)
    requires n > 0 && |data| == n
    ensures Groups(data + rest, n) == [data] + Groups(rest, n)
  {
    assert (data + rest)[..n] == data && (data + rest)[n..] == rest;
  }

  // ----- format version

  predicate Tagged(lines: seq<string>, tag: string) {
    exists i :: 0 <= i < |lines| && After(lines[i], tag).Some?
  }

  function Version(lines: seq<string>): (v: nat)
    ensures 1 <= v <= 3
  {
    if Tagged(lines, PMIC_TAG) then 3 else if Tagged(lines, BOARD_TAG) then 2 else 1
  }

  /** GetVersionInfo */
  method GetVersionInfo(lines: seq<string>) returns (v: nat)
    ensures v == Version(lines)
  {
    v := 1;
    var i := 0;
    while i < |lines|
      invariant i <= |lines|
      invariant v == (if Tagged(lines[..i], BOARD_TAG) then 2 else 1)
      invariant !Tagged(lines[..i], PMIC_TAG)
    {
      assert forall tag :: Tagged(lines[..i + 1], tag) <==> Tagged(lines[..i], tag) || After(lines[i], tag).Some? by {
        forall tag ensures Tagged(lines[..i + 1], tag) <==> Tagged(lines[..i], tag) || After(lines[i], tag).Some? {
          TaggedSnoc(lines, i, tag);
        }
      }
      if After(lines[i], BOARD_TAG).Some? {
        v := 2;
      }
      if After(lines[i], PMIC_TAG).Some? {
        v := 3;
        return;
      }
      i := i + 1;
    }
    assert lines[..i] == lines;
  }

  lemma TaggedSnoc(lines: seq<string>, i: nat, tag: string)
    requires i < |lines|
    ensures Tagged(lines[..i + 1], tag) <==> Tagged(lines[..i], tag) || After(lines[i], tag).Some?
  {
    if Tagged(lines[..i], tag) {
      var j :| 0 <= j < i && After(lines[..i][j], tag).Some?;
      assert lines[..i + 1][j] == lines[..i][j];
    }
    assert lines[..i + 1][i] == lines[i];
  }

  // ----- chains: the first element stays in front, later ones are linked right behind it

  function Push<T>(chain: seq<T>, x: T): seq<T> {
    if chain == [] then [x] else [chain[0], x] + chain[1..]
  }

  function Pushed<T>(xs: seq<T>): (r: seq<T>)
    ensures |r| == |xs| && (xs != [] ==> r[0] == xs[0])
  {
    if xs == [] then [] else Push(Pushed(xs[..|xs| - 1]), xs[|xs| - 1])
  }

  lemma {:induction false} PushedIsPermutation<T>(xs: seq<T>)
    ensures multiset(Pushed(xs)) == multiset(xs)
  {
    if xs != [] {
      var front := xs[..|xs| - 1];
      PushedIsPermutation(front);
      assert xs == front + [xs[|xs| - 1]];
      if front != [] {
        assert Pushed(front) == [Pushed(front)[0]] + Pushed(front)[1..];
      }
    }
  }

  // ----- cross product

  function Combine(m: MsmId, b: BoardId, p: PmicId): ChipId {
    ChipId(m.chipset, b.platform, b.subtype, m.revNum, p.pmic0, p.pmic1, p.pmic2, p.pmic3)
  }

  function MsmOf(c: ChipId): MsmId { MsmId(c.chipset, c.revNum) }
  function BoardOf(c: ChipId): BoardId { BoardId(c.platform, c.subtype) }
  function PmicOf(c: ChipId): PmicId { PmicId(c.pmic0, c.pmic1, c.pmic2, c.pmic3) }

  function Row(m: MsmId, b: BoardId, ps: seq<PmicId>): seq<ChipId> {
    if ps == [] then [] else Row(m, b, ps[..|ps| - 1]) + [Combine(m, b, ps[|ps| - 1])]
  }

  function Rows(m: MsmId, bs: seq<BoardId>, ps: seq<PmicId>): seq<ChipId> {
    if bs == [] then [] else Rows(m, bs[..|bs| - 1], ps) + Row(m, bs[|bs| - 1], ps)
  }

  function Product(ms: seq<MsmId>, bs: seq<BoardId>, ps: seq<PmicId>): seq<ChipId> {
    if ms == [] then [] else Product(ms[..|ms| - 1], bs, ps) + Rows(ms[|ms| - 1], bs, ps)
  }

  lemma CountSnoc<T>(xs: seq<T>, x: T)
    requires xs != []
    ensures multiset(xs)[x] == multiset(xs[..|xs| - 1])[x] + (if xs[|xs| - 1] == x then 1 else 0)
  {
    assert xs == xs[..|xs| - 1] + [xs[|xs| - 1]];
  }

  lemma {:induction false} RowCount(m: MsmId, b: BoardId, ps: seq<PmicId>, c: ChipId)
    ensures multiset(Row(m, b, ps))[c] == if m == MsmOf(c) && b == BoardOf(c) then multiset(ps)[PmicOf(c)] else 0
  {
    if ps != [] {
      RowCount(m, b, ps[..|ps| - 1], c);
      CountSnoc(ps, PmicOf(c));
      var last := Combine(m, b, ps[|ps| - 1]);
      assert last == c <==> m == MsmOf(c) && b == BoardOf(c) && ps[|ps| - 1] == PmicOf(c);
      assert multiset(Row(m, b, ps))[c] == multiset(Row(m, b, ps[..|ps| - 1]))[c] + (if last == c then 1 else 0);
    }
  }

  lemma Distribute(a: nat, hit: bool, p: nat)
    ensures (a + if hit then 1 else 0) * p == a * p + if hit then p else 0
  {
  }

  lemma {:induction false} RowsCount(m: MsmId, bs: seq<BoardId>, ps: seq<PmicId>, c: ChipId)
    ensures multiset(Rows(m, bs, ps))[c] ==
            if m == MsmOf(c) then multiset(bs)[BoardOf(c)] * multiset(ps)[PmicOf(c)] else 0
  {
    hide Row;
    hide MsmOf;
    hide BoardOf;
    hide PmicOf;
    if bs != [] {
      var front, b := bs[..|bs| - 1], bs[|bs| - 1];
      RowsCount(m, front, ps, c);
      RowCount(m, b, ps, c);
      CountSnoc(bs, BoardOf(c));
      Distribute(multiset(front)[BoardOf(c)], b == BoardOf(c), multiset(ps)[PmicOf(c)]);
    }
  }

  lemma {:induction false} ProductCountOf(ms: seq<MsmId>, bs: seq<BoardId>, ps: seq<PmicId>, c: ChipId, p: nat)
    requires forall m :: multiset(Rows(m, bs, ps))[c] == if m == MsmOf(c) then p else 0
    ensures multiset(Product(ms, bs, ps))[c] == multiset(ms)[MsmOf(c)] * p
  {
    if ms != [] {
      var front, m := ms[..|ms| - 1], ms[|ms| - 1];
      ProductCountOf(front, bs, ps, c, p);
      CountSnoc(ms, MsmOf(c));
      Distribute(multiset(front)[MsmOf(c)], m == MsmOf(c), p);
    }
  }

  /** How often a combination occurs in the cross product of three lists with repetitions. */
  function Multiplicity(ms: seq<MsmId>, bs: seq<BoardId>, ps: seq<PmicId>, c: ChipId): nat {
    multiset(ms)[MsmOf(c)] * (multiset(bs)[BoardOf(c)] * multiset(ps)[PmicOf(c)])
  }

  /** The product holds every combination as often as its parts occur, and nothing else. */
  lemma ProductCount(ms: seq<MsmId>, bs: seq<BoardId>, ps: seq<PmicId>, c: ChipId)
    ensures multiset(Product(ms, bs, ps))[c] == Multiplicity(ms, bs, ps, c)
  {
    forall m {
      RowsCount(m, bs, ps, c);
    }
    ProductCountOf(ms, bs, ps, c, multiset(bs)[BoardOf(c)] * multiset(ps)[PmicOf(c)]);
  }

  lemma {:induction false} RowHead(m: MsmId, b: BoardId, ps: seq<PmicId>)
    requires ps != []
    ensures Row(m, b, ps) != [] && Row(m, b, ps)[0] == Combine(m, b, ps[0])
  {
    if |ps| > 1 {
      RowHead(m, b, ps[..|ps| - 1]);
    }
  }

  lemma {:induction false} RowsHead(m: MsmId, bs: seq<BoardId>, ps: seq<PmicId>)
    requires bs != [] && ps != []
    ensures Rows(m, bs, ps) != [] && Rows(m, bs, ps)[0] == Combine(m, bs[0], ps[0])
  {
    if |bs| > 1 {
      RowsHead(m, bs[..|bs| - 1], ps);
    } else {
      RowHead(m, bs[0], ps);
    }
  }

  lemma {:induction false} ProductHead(ms: seq<MsmId>, bs: seq<BoardId>, ps: seq<PmicId>)
    requires ms != [] && bs != [] && ps != []
    ensures Product(ms, bs, ps) != [] && Product(ms, bs, ps)[0] == Combine(ms[0], bs[0], ps[0])
  {
    if |ms| > 1 {
      ProductHead(ms[..|ms| - 1], bs, ps);
    } else {
      RowsHead(ms[0], bs, ps);
    }
  }

  // ----- the whole file

  function TagGroups(lines: seq<string>, tag: string, n: nat, num: string -> u32): seq<seq<u32>>
    requires n > 0
  {
    if lines == [] then []
    else
      var front := TagGroups(lines[..|lines| - 1], tag, n, num);
      var hit := After(lines[|lines| - 1], tag);
      if hit.Some? then front + LineGroups(hit.value, n, num) else front
  }

  lemma {:induction false} TagGroupSizes(lines: seq<string>, tag: string, n: nat, num: string -> u32)
    requires n > 0
    ensures AllOfSize(TagGroups(lines, tag, n, num), n)
  {
    if lines != [] {
      TagGroupSizes(lines[..|lines| - 1], tag, n, num);
      var hit := After(lines[|lines| - 1], tag);
      if hit.Some? {
        GroupsTileTheNumbers(Numbers(Tokens(hit.value, BLANKS), num), n);
      }
    }
  }

  function MsmIds(gs: seq<seq<u32>>): seq<MsmId>
    requires AllOfSize(gs, 2)
  {
    seq(|gs|, k requires 0 <= k < |gs| => MsmId(gs[k][0], gs[k][1]))
  }

  function BoardIds(gs: seq<seq<u32>>): seq<BoardId>
    requires AllOfSize(gs, 2)
  {
    seq(|gs|, k requires 0 <= k < |gs| => BoardId(gs[k][0], gs[k][1]))
  }

  function PmicIds(gs: seq<seq<u32>>): seq<PmicId>
    requires AllOfSize(gs, 4)
  {
    seq(|gs|, k requires 0 <= k < |gs| => PmicId(gs[k][0], gs[k][1], gs[k][2], gs[k][3]))
  }

  function TripleIds(gs: seq<seq<u32>>): seq<ChipId>
    requires AllOfSize(gs, 3)
  {
    seq(|gs|, k requires 0 <= k < |gs| => ChipId(gs[k][0], gs[k][1], 0, gs[k][2], 0, 0, 0, 0))
  }

  /** The parsed lists of a version 2 or 3 file; a version 2 file counts as having one all-zero pmic id. */
  function FileMsmIds(lines: seq<string>, num: string -> u32): seq<MsmId> {
    TagGroupSizes(lines, DT_TAG, 2, num);
    MsmIds(TagGroups(lines, DT_TAG, 2, num))
  }

  function FileBoardIds(lines: seq<string>, num: string -> u32): seq<BoardId> {
    TagGroupSizes(lines, BOARD_TAG, 2, num);
    BoardIds(TagGroups(lines, BOARD_TAG, 2, num))
  }

  function FilePmicIds(lines: seq<string>, num: string -> u32): seq<PmicId> {
    TagGroupSizes(lines, PMIC_TAG, 4, num);
    if Version(lines) == 3 then PmicIds(TagGroups(lines, PMIC_TAG, 4, num)) else [NO_PMIC]
  }

  /** A version 1 file is read up to its first tag line. */
  function FirstTagText(lines: seq<string>): Option<string> {
    if lines == [] then None
    else if After(lines[0], DT_TAG).Some? then After(lines[0], DT_TAG)
    else FirstTagText(lines[1..])
  }

  /** The triples behind the tag of a version 1 line. */
  function Triples(text: string, num: string -> u32): seq<ChipId> {
    GroupsTileTheNumbers(Numbers(Tokens(text, BLANKS), num), 3);
    TripleIds(LineGroups(text, 3, num))
  }

  /** The ids of the chain that getChipInfo returns, in chain order; empty when it returns NULL. */
  function ChainIds(lines: seq<string>, num: string -> u32): seq<ChipId> {
    if Version(lines) == 1 then
      if FirstTagText(lines).Some? then Pushed(Triples(FirstTagText(lines).value, num)) else []
    else
      var ms, bs, ps := FileMsmIds(lines, num), FileBoardIds(lines, num), FilePmicIds(lines, num);
      if ms == [] || bs == [] || ps == [] then []
      else Pushed(Product(Pushed(ms), Pushed(bs), Pushed(ps)))
  }

  lemma CrossChain(ms: seq<MsmId>, bs: seq<BoardId>, ps: seq<PmicId>, c: ChipId)
    requires ms != [] && bs != [] && ps != []
    ensures var chain := Pushed(Product(Pushed(ms), Pushed(bs), Pushed(ps)));
            && multiset(chain)[c] == Multiplicity(ms, bs, ps, c)
            && chain != [] && chain[0] == Combine(ms[0], bs[0], ps[0])
  {
    PushedIsPermutation(ms);
    PushedIsPermutation(bs);
    PushedIsPermutation(ps);
    ProductCount(Pushed(ms), Pushed(bs), Pushed(ps), c);
    ProductHead(Pushed(ms), Pushed(bs), Pushed(ps));
    PushedIsPermutation(Product(Pushed(ms), Pushed(bs), Pushed(ps)));
  }

  /** For versions 2 and 3 the chain is the cross product of the parsed lists, headed by the first of each. */
  lemma ChainIsCrossProduct(lines: seq<string>, num: string -> u32, c: ChipId)
    requires Version(lines) != 1
    ensures var ms, bs, ps := FileMsmIds(lines, num), FileBoardIds(lines, num), FilePmicIds(lines, num);
            && multiset(ChainIds(lines, num))[c] == Multiplicity(ms, bs, ps, c)
            && (ChainIds(lines, num) != [] <==> ms != [] && bs != [] && ps != [])
            && (ChainIds(lines, num) != [] ==> ChainIds(lines, num)[0] == Combine(ms[0], bs[0], ps[0]))
  {
    hide *;
    ChainIdsAre(lines, num);
    var ms, bs, ps := FileMsmIds(lines, num), FileBoardIds(lines, num), FilePmicIds(lines, num);
    if ms != [] && bs != [] && ps != [] {
      CrossChain(ms, bs, ps, c);
    } else {
      EmptyProduct(ms, bs, ps, c);
    }
  }

  lemma ChainIdsAre(lines: seq<string>, num: string -> u32)
    requires Version(lines) != 1
    ensures var ms, bs, ps := FileMsmIds(lines, num), FileBoardIds(lines, num), FilePmicIds(lines, num);
            ChainIds(lines, num) ==
            if ms == [] || bs == [] || ps == [] then [] else Pushed(Product(Pushed(ms), Pushed(bs), Pushed(ps)))
  {
    hide FileMsmIds;
    hide FileBoardIds;
    hide FilePmicIds;
    hide Version;
    hide Pushed;
    hide Product;
  }

  lemma EmptyProduct(ms: seq<MsmId>, bs: seq<BoardId>, ps: seq<PmicId>, c: ChipId)
    requires ms == [] || bs == [] || ps == []
    ensures Multiplicity(ms, bs, ps, c) == 0
  {
  }

  /** For version 1 the chain is the triples of the first tag line, headed by the first triple. */
  lemma ChainIsTriples(lines: seq<string>, num: string -> u32)
    requires Version(lines) == 1
    ensures var chain, text := ChainIds(lines, num), FirstTagText(lines);
            var triples := if text.Some? then Triples(text.value, num) else [];
            multiset(chain) == multiset(triples) && (triples != [] ==> chain != [] && chain[0] == triples[0])
  {
    if FirstTagText(lines).Some? {
      PushedIsPermutation(Triples(FirstTagText(lines).value, num));
    }
  }
}
