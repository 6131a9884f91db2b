/** What the parsed ids of a DTB are in terms of the text of its lines. */
module TagMeaning {
  import opened Bytes
  import opened ChipIds
  import opened Text
  import opened TagLines

  // ----- the numbers of one line

  /** The numbers are the tokens before the first one that starts with `>`, or all of them. */
  lemma {:induction false} NumbersAre(toks: seq<string>, num: string -> u32) returns (n: nat)
    ensures n <= |toks| && |Numbers(toks, num)| == n
    ensures forall i :: 0 <= i < n ==> Numbers(toks, num)[i] == num(toks[i])
    ensures forall i :: 0 <= i < n ==> toks[i] == [] || toks[i][0] != '>'
    ensures n < |toks| ==> toks[n] != [] && toks[n][0] == '>'
  {
    if toks == [] || Closes(toks[0]) {
      n := 0;
    } else {
      n := NumbersAre(toks[1..], num);
      n := n + 1;
    }
  }

  /** The numbers that a line gives for a tag: what follows its first occurrence, split at blanks and tabs. */
  ghost predicate Gives(line: string, tag: string, num: string -> u32, xs: seq<u32>) {
    exists i: nat :: FirstAt(line, tag, i) && xs == Numbers(Tokens(line[i + |tag|..], {' ', '\t'}), num)
  }

  lemma GivesMeans(line: string, tag: string, num: string -> u32, xs: seq<u32>)
    ensures Gives(line, tag, num, xs) <==>
            After(line, tag).Some? && xs == Numbers(Tokens(After(line, tag).value, BLANKS), num)
  {
    AfterIsFirst(line, tag);
    hide After;
    hide Tokens;
    hide Numbers;
    if After(line, tag).Some? {
      var i: nat :| FirstAt(line, tag, i);
    }
  }

  lemma OneLess(n: nat, k: nat)
    ensures k > 0 ==> n * k == n * (k - 1) + n && n * (k - 1) >= 0
    ensures n * k >= 0 && n * 0 == 0
  {
  }

  /** Group k consists of the numbers n * k to n * k + n - 1. */
  lemma {:induction false} GroupAt(xs: seq<u32>, n: nat, k: nat)
    requires n > 0
    ensures k < |Groups(xs, n)| <==> n * k + n <= |xs|
    ensures k < |Groups(xs, n)| ==> 0 <= n * k && Groups(xs, n)[k] == xs[n * k..n * k + n]
    decreases |xs|
  {
    OneLess(n, k);
    if |xs| >= n && k > 0 {
      GroupAt(xs[n..], n, k - 1);
      TailSlice(xs, n, n * (k - 1), n * (k - 1) + n);
    }
  }

  lemma TailSlice(xs: seq<u32>, n: nat, i: nat, j: nat)
    requires n <= |xs| && i <= j
    ensures j <= |xs| - n ==> xs[n..][i..j] == xs[i + n..j + n]
  {
  }

  /** One of the groups of a line that carries the tag: group k, for some k, of its numbers. */
  ghost predicate GroupOf(line: string, tag: string, n: nat, num: string -> u32, g: seq<u32>) {
    exists xs, k: nat :: Gives(line, tag, num, xs) && IsGroup(xs, n, k, g)
  }

  predicate IsGroup(xs: seq<u32>, n: nat, k: nat, g: seq<u32>) {
    n * k + n <= |xs| && g == xs[n * k..n * k + n]
  }

  /** The groups of a file are those of its tagged lines. */
  lemma {:induction false} GroupsOfLines(lines: seq<string>, tag: string, n: nat, num: string -> u32, g: seq<u32>)
    requires n > 0
    ensures g in TagGroups(lines, tag, n, num) <==>
            exists i :: 0 <= i < |lines| && GroupOf(lines[i], tag, n, num, g)
  {
    hide GroupOf;
    hide After;
    hide LineGroups;
    if lines != [] {
      var front, line := lines[..|lines| - 1], lines[|lines| - 1];
      GroupsOfLines(front, tag, n, num, g);
      GroupOfLast(line, tag, n, num, g);
      if g in TagGroups(front, tag, n, num) {
        var i :| 0 <= i < |front| && GroupOf(front[i], tag, n, num, g);
        assert GroupOf(lines[i], tag, n, num, g);
      }
    }
  }

  /** Line after line, and group after group within a line. */
  lemma {:induction false} GroupsInOrder(a: seq<string>, b: seq<string>, tag: string, n: nat, num: string -> u32)
    requires n > 0
    ensures TagGroups(a + b, tag, n, num) == TagGroups(a, tag, n, num) + TagGroups(b, tag, n, num)
  {
    hide LineGroups;
    hide After;
    if b == [] {
      assert a + b == a;
    } else {
      GroupsInOrder(a, b[..|b| - 1], tag, n, num);
      assert (a + b)[..|a + b| - 1] == a + b[..|b| - 1];
    }
  }

  lemma GroupOfLast(line: string, tag: string, n: nat, num: string -> u32, g: seq<u32>)
    requires n > 0
    ensures (After(line, tag).Some? && g in LineGroups(After(line, tag).value, n, num)) <==>
            GroupOf(line, tag, n, num, g)
  {
    hide After;
    hide Gives;
    hide Tokens;
    hide Numbers;
    hide Groups;
    forall xs {
      GivesMeans(line, tag, num, xs);
    }
    if After(line, tag).Some? {
      var xs := Numbers(Tokens(After(line, tag).value, BLANKS), num);
      assert LineGroups(After(line, tag).value, n, num) == Groups(xs, n);
      forall k: nat {
        GroupAt(xs, n, k);
      }
      if g in Groups(xs, n) {
        var k: nat :| k < |Groups(xs, n)| && Groups(xs, n)[k] == g;
        assert Gives(line, tag, num, xs) && IsGroup(xs, n, k, g);
      }
      if GroupOf(line, tag, n, num, g) {
        var ys, k: nat :| Gives(line, tag, num, ys) && IsGroup(ys, n, k, g);
        assert g == Groups(xs, n)[k];
      }
    }
  }

  // ----- versions

  /** The version is 3 if some line holds the pmic tag, else 2 if some line holds the board tag, else 1. */
  lemma VersionMeans(lines: seq<string>)
    ensures Version(lines) == 3 <==> exists i, j: nat :: 0 <= i < |lines| && OccursAt(lines[i], "qcom,pmic-id = <", j)
    ensures Version(lines) >= 2 <==>
            exists i, j: nat :: 0 <= i < |lines| &&
              (OccursAt(lines[i], "qcom,pmic-id = <", j) || OccursAt(lines[i], "qcom,board-id = <", j))
  {
    TaggedMeans(lines, "qcom,pmic-id = <");
    TaggedMeans(lines, "qcom,board-id = <");
    hide OccursAt;
    hide Tagged;
  }

  lemma TaggedMeans(lines: seq<string>, tag: string)
    ensures Tagged(lines, tag) <==> exists i, j: nat :: 0 <= i < |lines| && OccursAt(lines[i], tag, j)
  {
    hide After;
    hide OccursAt;
    forall i | 0 <= i < |lines| ensures After(lines[i], tag).Some? <==> exists j: nat :: OccursAt(lines[i], tag, j) {
      AfterIsFirst(lines[i], tag);
    }
  }

  // ----- the ids of a file

  /** Some line with the tag has a = x[2k] and b = x[2k + 1] among its numbers x. */
  ghost predicate HasPair(lines: seq<string>, tag: string, num: string -> u32, a: u32, b: u32) {
    exists i :: 0 <= i < |lines| && GroupOf(lines[i], tag, 2, num, [a, b])
  }

  ghost predicate HasQuad(lines: seq<string>, tag: string, num: string -> u32, a: u32, b: u32, c: u32, d: u32) {
    exists i :: 0 <= i < |lines| && GroupOf(lines[i], tag, 4, num, [a, b, c, d])
  }

  lemma MsmIdsAre(lines: seq<string>, num: string -> u32, m: MsmId)
    ensures m in FileMsmIds(lines, num) <==> HasPair(lines, "qcom,msm-id = <", num, m.chipset, m.revNum)
  {
    var gs := TagGroups(lines, DT_TAG, 2, num);
    TagGroupSizes(lines, DT_TAG, 2, num);
    GroupsOfLines(lines, DT_TAG, 2, num, [m.chipset, m.revNum]);
    hide TagGroups;
    if m in MsmIds(gs) {
      var k :| 0 <= k < |gs| && MsmIds(gs)[k] == m;
      assert gs[k] == [m.chipset, m.revNum];
    }
    if [m.chipset, m.revNum] in gs {
      var k :| 0 <= k < |gs| && gs[k] == [m.chipset, m.revNum];
      assert MsmIds(gs)[k] == m;
    }
  }

  lemma BoardIdsAre(lines: seq<string>, num: string -> u32, b: BoardId)
    ensures b in FileBoardIds(lines, num) <==> HasPair(lines, "qcom,board-id = <", num, b.platform, b.subtype)
  {
    var gs := TagGroups(lines, BOARD_TAG, 2, num);
    TagGroupSizes(lines, BOARD_TAG, 2, num);
    GroupsOfLines(lines, BOARD_TAG, 2, num, [b.platform, b.subtype]);
    hide TagGroups;
    if b in BoardIds(gs) {
      var k :| 0 <= k < |gs| && BoardIds(gs)[k] == b;
      assert gs[k] == [b.platform, b.subtype];
    }
    if [b.platform, b.subtype] in gs {
      var k :| 0 <= k < |gs| && gs[k] == [b.platform, b.subtype];
      assert BoardIds(gs)[k] == b;
    }
  }

  lemma PmicIdsAre(lines: seq<string>, num: string -> u32, p: PmicId)
    requires Version(lines) != 1
    ensures p in FilePmicIds(lines, num) <==>
            if Version(lines) == 3
            then HasQuad(lines, "qcom,pmic-id = <", num, p.pmic0, p.pmic1, p.pmic2, p.pmic3)
            else p.pmic0 == p.pmic1 == p.pmic2 == p.pmic3 == 0
  {
    var gs, g := TagGroups(lines, PMIC_TAG, 4, num), [p.pmic0, p.pmic1, p.pmic2, p.pmic3];
    TagGroupSizes(lines, PMIC_TAG, 4, num);
    GroupsOfLines(lines, PMIC_TAG, 4, num, g);
    hide TagGroups;
    hide Version;
    if p in PmicIds(gs) {
      var k :| 0 <= k < |gs| && PmicIds(gs)[k] == p;
      assert gs[k] == g;
    }
    if g in gs {
      var k :| 0 <= k < |gs| && gs[k] == g;
      assert PmicIds(gs)[k] == p;
    }
  }

  /** The ids of a version 2 or 3 file, field by field, from the numbers on its lines. */
  lemma ChainHasExactly(lines: seq<string>, num: string -> u32, c: ChipId)
    requires Version(lines) != 1
    ensures c in ChainIds(lines, num) <==>
            && HasPair(lines, "qcom,msm-id = <", num, c.chipset, c.revNum)
            && HasPair(lines, "qcom,board-id = <", num, c.platform, c.subtype)
            && (if Version(lines) == 3 then HasQuad(lines, "qcom,pmic-id = <", num, c.pmic0, c.pmic1, c.pmic2, c.pmic3)
                else c.pmic0 == c.pmic1 == c.pmic2 == c.pmic3 == 0)
  {
    var m, b := MsmId(c.chipset, c.revNum), BoardId(c.platform, c.subtype);
    var p := PmicId(c.pmic0, c.pmic1, c.pmic2, c.pmic3);
    assert MsmOf(c) == m && BoardOf(c) == b && PmicOf(c) == p;
    ChainIsCrossProduct(lines, num, c);
    MsmIdsAre(lines, num, m);
    BoardIdsAre(lines, num, b);
    PmicIdsAre(lines, num, p);
    hide FileMsmIds;
    hide FileBoardIds;
    hide FilePmicIds;
    hide ChainIds;
    hide Version;
    hide HasPair;
    hide HasQuad;
    NoZeroProduct(multiset(FileMsmIds(lines, num))[m], multiset(FileBoardIds(lines, num))[b],
                  multiset(FilePmicIds(lines, num))[p]);
  }

  lemma NoZeroProduct(a: nat, b: nat, c: nat)
    ensures a * (b * c) > 0 <==> a > 0 && b > 0 && c > 0
  {
    if a > 0 && b > 0 && c > 0 {
      assert b * c >= 1;
      assert a * (b * c) >= b * c;
    }
  }

  /** The line that a version 1 file is read from: the first one that holds the msm tag. */
  lemma {:induction false} FirstTagMeans(lines: seq<string>)
    ensures FirstTagText(lines).None? ==> forall i :: 0 <= i < |lines| ==> After(lines[i], "qcom,msm-id = <").None?
    ensures FirstTagText(lines).Some? ==> exists i :: FirstTagged(lines, i)
  {
    if lines != [] && After(lines[0], DT_TAG).None? {
      FirstTagMeans(lines[1..]);
      if FirstTagText(lines).Some? {
        var i :| FirstTagged(lines[1..], i);
        forall j | 0 <= j < i + 1 ensures After(lines[j], "qcom,msm-id = <").None? {
          assert j > 0 ==> lines[j] == lines[1..][j - 1];
        }
        assert FirstTagged(lines, i + 1);
      } else {
        forall i | 0 <= i < |lines| ensures After(lines[i], "qcom,msm-id = <").None? {
          assert i > 0 ==> lines[i] == lines[1..][i - 1];
        }
      }
    } else if lines != [] {
      assert FirstTagged(lines, 0);
    }
  }

  predicate FirstTagged(lines: seq<string>, i: int) {
    && 0 <= i < |lines| && FirstTagText(lines) == After(lines[i], "qcom,msm-id = <") && FirstTagText(lines).Some?
    && forall j :: 0 <= j < i ==> After(lines[j], "qcom,msm-id = <").None?
  }

  /** The k-th id of a version 1 line: chipset, platform and revision are its numbers 3k, 3k + 1 and 3k + 2. */
  lemma TripleAt(text: string, num: string -> u32, k: nat)
    ensures var xs, ids := Numbers(Tokens(text, {' ', '\t'}), num), Triples(text, num);
            && (k < |ids| <==> 3 * k + 3 <= |xs|)
            && (k < |ids| ==>
                  && ids[k].chipset == xs[3 * k] && ids[k].platform == xs[3 * k + 1] && ids[k].revNum == xs[3 * k + 2]
                  && ids[k].subtype == 0
                  && ids[k].pmic0 == ids[k].pmic1 == ids[k].pmic2 == ids[k].pmic3 == 0)
  {
    hide Tokens;
    hide Numbers;
    var xs := Numbers(Tokens(text, BLANKS), num);
    GroupsTileTheNumbers(xs, 3);
    GroupAt(xs, 3, k);
    hide Groups;
    if k < |Groups(xs, 3)| {
      assert Groups(xs, 3)[k][0] == xs[3 * k] && Groups(xs, 3)[k][1] == xs[3 * k + 1];
      assert Groups(xs, 3)[k][2] == xs[3 * k + 2];
    }
  }

  // ----- the order of a chain

  /** Later elements are linked right behind the head, so they follow it backwards. */
  lemma {:induction false} PushedAt<T>(xs: seq<T>, k: nat)
    requires k < |xs|
    ensures Pushed(xs)[k] == if k == 0 then xs[0] else xs[|xs| - k]
  {
    if k > 1 {
      PushedAt(xs[..|xs| - 1], k - 1);
    }
  }

  lemma {:induction false} RowAt(m: MsmId, b: BoardId, ps: seq<PmicId>, k: nat)
    requires k < |ps|
    ensures |Row(m, b, ps)| == |ps|
    ensures var c := Row(m, b, ps)[k];
            && c.chipset == m.chipset && c.revNum == m.revNum && c.platform == b.platform && c.subtype == b.subtype
            && c.pmic0 == ps[k].pmic0 && c.pmic1 == ps[k].pmic1 && c.pmic2 == ps[k].pmic2 && c.pmic3 == ps[k].pmic3
  {
    RowLength(m, b, ps);
    if k < |ps| - 1 {
      RowLength(m, b, ps[..|ps| - 1]);
      RowAt(m, b, ps[..|ps| - 1], k);
    } else {
      RowLength(m, b, ps[..|ps| - 1]);
    }
  }

  lemma {:induction false} RowLength(m: MsmId, b: BoardId, ps: seq<PmicId>)
    ensures |Row(m, b, ps)| == |ps|
  {
    if ps != [] {
      RowLength(m, b, ps[..|ps| - 1]);
    }
  }

  lemma OneMore(i: nat, n: nat)
    ensures (i + 1) * n == i * n + n && i * n >= 0
  {
  }

  lemma {:induction false} RowsLength(m: MsmId, bs: seq<BoardId>, ps: seq<PmicId>)
    ensures |Rows(m, bs, ps)| == |bs| * |ps|
  {
    hide Row;
    if bs != [] {
      RowsLength(m, bs[..|bs| - 1], ps);
      RowLength(m, bs[|bs| - 1], ps);
      OneMore(|bs| - 1, |ps|);
    }
  }

  /** Board ids outside, pmic ids inside. */
  lemma {:induction false} RowsAt(m: MsmId, bs: seq<BoardId>, ps: seq<PmicId>, j: nat)
    requires j < |bs|
    ensures 0 <= j * |ps| <= j * |ps| + |ps| <= |Rows(m, bs, ps)|
    ensures Rows(m, bs, ps)[j * |ps|..j * |ps| + |ps|] == Row(m, bs[j], ps)
  {
    hide Row;
    var front := bs[..|bs| - 1];
    RowsLength(m, front, ps);
    RowLength(m, bs[|bs| - 1], ps);
    OneMore(j, |ps|);
    if j < |bs| - 1 {
      RowsAt(m, front, ps, j);
      SliceOfFirst(Rows(m, front, ps), Row(m, bs[|bs| - 1], ps), j * |ps|, j * |ps| + |ps|);
    }
  }

  lemma SliceOfFirst<T>(a: seq<T>, b: seq<T>, i: nat, j: nat)
    requires i <= j <= |a|
    ensures (a + b)[i..j] == a[i..j]
  {
  }

  lemma {:induction false} ProductLength(ms: seq<MsmId>, bs: seq<BoardId>, ps: seq<PmicId>, n: nat)
    requires forall m :: |Rows(m, bs, ps)| == n
    ensures |Product(ms, bs, ps)| == |ms| * n
  {
    hide Rows;
    if ms != [] {
      ProductLength(ms[..|ms| - 1], bs, ps, n);
      OneMore(|ms| - 1, n);
    }
  }

  lemma {:induction false} ProductPart(ms: seq<MsmId>, bs: seq<BoardId>, ps: seq<PmicId>, i: nat, n: nat)
    requires i < |ms| && forall m :: |Rows(m, bs, ps)| == n
    ensures 0 <= i * n <= i * n + n <= |Product(ms, bs, ps)|
    ensures Product(ms, bs, ps)[i * n..i * n + n] == Rows(ms[i], bs, ps)
  {
    hide Rows;
    var front := ms[..|ms| - 1];
    ProductLength(front, bs, ps, n);
    OneMore(i, n);
    if i < |ms| - 1 {
      ProductPart(front, bs, ps, i, n);
      SliceOfFirst(Product(front, bs, ps), Rows(ms[|ms| - 1], bs, ps), i * n, i * n + n);
    }
  }

  /** Msm ids outermost. */
  lemma ProductAt(ms: seq<MsmId>, bs: seq<BoardId>, ps: seq<PmicId>, i: nat)
    requires i < |ms|
    ensures var n := |bs| * |ps|;
            && 0 <= i * n <= i * n + n <= |Product(ms, bs, ps)|
            && Product(ms, bs, ps)[i * n..i * n + n] == Rows(ms[i], bs, ps)
  {
    forall m {
      RowsLength(m, bs, ps);
    }
    hide Rows;
    ProductPart(ms, bs, ps, i, |bs| * |ps|);
  }
}
