/** C and Python string handling: strtok_r, strstr, split, and prefix and suffix tests. */
module Text {
  datatype Option<+T> = None | Some(value: T)

  function DelimRun(s: string, delims: set<char>): (n: nat)
    ensures n <= |s| && (n < |s| ==> s[n] !in delims)
    ensures forall i :: 0 <= i < n ==> s[i] in delims
  {
    if s == [] || s[0] !in delims then 0 else 1 + DelimRun(s[1..], delims)
  }

  function TokenRun(s: string, delims: set<char>): (n: nat)
    ensures n <= |s| && (n < |s| ==> s[n] in delims) && (s != [] && s[0] !in delims ==> n > 0)
    ensures forall i :: 0 <= i < n ==> s[i] !in delims
  {
    if s == [] || s[0] in delims then 0 else 1 + TokenRun(s[1..], delims)
  }

  /** The tokens that repeated strtok_r calls deliver. */
  function Tokens(s: string, delims: set<char>): seq<string>
    decreases |s|
  {
    var t := s[DelimRun(s, delims)..];
    if t == [] then [] else [t[..TokenRun(t, delims)]] + Tokens(t[TokenRun(t, delims)..], delims)
  }

  method SkipDelims(s: string, delims: set<char>, pos: nat) returns (start: nat)
    requires pos <= |s|
    ensures pos <= start <= |s|
    ensures start == pos + DelimRun(s[pos..], delims)
  {
    start := pos;
    while start < |s| && s[start] in delims
      invariant pos <= start <= |s|
      invariant start + DelimRun(s[start..], delims) == pos + DelimRun(s[pos..], delims)
    {
      assert s[start..][1..] == s[start + 1..];
      start := start + 1;
    }
  }

  method SkipToken(s: string, delims: set<char>, pos: nat) returns (end: nat)
    requires pos <= |s|
    ensures pos <= end <= |s|
    ensures end == pos + TokenRun(s[pos..], delims)
  {
    end := pos;
    while end < |s| && s[end] !in delims
      invariant pos <= end <= |s|
      invariant end + TokenRun(s[end..], delims) == pos + TokenRun(s[pos..], delims)
    {
      assert s[end..][1..] == s[end + 1..];
      end := end + 1;
    }
  }

  /** Repeated strtok_r calls on one buffer; `pos` is the saved cursor. */
  method Tokenize(s: string, delims: set<char>) returns (toks: seq<string>)
    ensures toks == Tokens(s, delims)
  {
    hide *;
    toks := [];
    var pos := 0;
    assert s[0..] == s;
    while true
      invariant pos <= |s|
      invariant toks + Tokens(s[pos..], delims) == Tokens(s, delims)
      decreases |s| - pos
    {
      var start := SkipDelims(s, delims, pos);
      if start == |s| {
        NoMoreTokens(s[pos..], delims);
        return;
      }
      var end := SkipToken(s, delims, start);
      TokensStep(s, delims, pos, start, end);
      ghost var before := toks;
      toks := toks + [s[start..end]];
      assert before + ([s[start..end]] + Tokens(s[end..], delims)) == toks + Tokens(s[end..], delims);
      pos := end;
    }
  }

  lemma TokensStep(s: string, delims: set<char>, pos: nat, start: nat, end: nat)
    requires pos <= start < |s| && start <= end <= |s|
    requires start == pos + DelimRun(s[pos..], delims) && end == start + TokenRun(s[start..], delims)
    ensures end > start && Tokens(s[pos..], delims) == [s[start..end]] + Tokens(s[end..], delims)
  {
    hide Tokens;
    var t := s[start..];
    assert s[pos..][start - pos..] == t;
    assert t[0] == s[pos..][start - pos];
    assert t[..end - start] == s[start..end] && t[end - start..] == s[end..];
    TokensOfRun(s[pos..], delims);
  }

  lemma NoMoreTokens(s: string, delims: set<char>)
    requires DelimRun(s, delims) == |s|
    ensures Tokens(s, delims) == []
  {
  }

  lemma TokensOfRun(s: string, delims: set<char>)
    ensures var t := s[DelimRun(s, delims)..];
            t != [] ==> Tokens(s, delims) == [t[..TokenRun(t, delims)]] + Tokens(t[TokenRun(t, delims)..], delims)
  {
  }

  lemma TokensSkipDelim(s: string, delims: set<char>)
    requires s != [] && s[0] in delims
    ensures Tokens(s, delims) == Tokens(s[1..], delims)
  {
    var t := s[1..];
    assert s[DelimRun(s, delims)..] == t[DelimRun(t, delims)..];
  }

  /** Python's s.split(c), and the pieces of C text between single delimiters. */
  function Split(s: string, c: char): (r: seq<string>)
    ensures |r| >= 1
  {
    if s == [] then [[]]
    else if s[0] == c then [[]] + Split(s[1..], c)
    else var r := Split(s[1..], c); [[s[0]] + r[0]] + r[1..]
  }

  function NonEmpty(xs: seq<string>): seq<string> {
    if xs == [] then [] else if xs[0] == [] then NonEmpty(xs[1..]) else [xs[0]] + NonEmpty(xs[1..])
  }

  /** strtok_r delivers exactly the non-empty pieces between delimiters. */
  lemma {:induction false} TokensAreNonEmptyPieces(s: string, c: char)
    ensures Tokens(s, {c}) == NonEmpty(Split(s, c))
    decreases |s|
  {
    if s == [] {
    } else if s[0] == c {
      TokensSkipDelim(s, {c});
      TokensAreNonEmptyPieces(s[1..], c);
      assert Split(s, c)[1..] == Split(s[1..], c);
    } else {
      var n := TokenRun(s, {c});
      assert s[0..] == s;
      SplitAfterRun(s, c, n);
      TokensAreNonEmptyPieces(s[n..], c);
      if n < |s| {
        TokensSkipDelim(s[n..], {c});
        TokensAreNonEmptyPieces(s[n..][1..], c);
      }
    }
  }

  lemma {:induction false} SplitAfterRun(s: string, c: char, n: nat)
    requires n <= |s| && (forall i :: 0 <= i < n ==> s[i] != c) && (n < |s| ==> s[n] == c)
    ensures Split(s, c) == [s[..n]] + (if n < |s| then Split(s[n + 1..], c) else [])
  {
    if n > 0 {
      SplitAfterRun(s[1..], c, n - 1);
      assert s[1..][..n - 1] == s[1..n];
      assert s[..n] == [s[0]] + s[1..n];
      if n < |s| {
        assert s[1..][n..] == s[n + 1..];
      }
    } else if s != [] {
      assert s[..0] == [];
    }
  }

  /** strstr: the text after the first occurrence of the tag. */
  function After(line: string, tag: string): Option<string> {
    if tag <= line then Some(line[|tag|..])
    else if line == [] then None
    else After(line[1..], tag)
  }

  predicate OccursAt(line: string, tag: string, i: nat) {
    i <= |line| && tag <= line[i..]
  }

  /** strstr's answer: the text behind an occurrence at `i` before which there is none. */
  predicate FirstAt(line: string, tag: string, i: nat) {
    && OccursAt(line, tag, i) && After(line, tag) == Some(line[i + |tag|..])
    && forall k: nat :: k < i ==> !OccursAt(line, tag, k)
  }

  /** strstr finds the first occurrence, and fails only when there is none. */
  lemma {:induction false} AfterIsFirst(line: string, tag: string)
    ensures if After(line, tag) == None then forall i: nat :: !OccursAt(line, tag, i)
            else exists i: nat :: FirstAt(line, tag, i)
  {
    assert line[0..] == line;
    if tag <= line {
      assert FirstAt(line, tag, 0);
    } else if line != [] {
      AfterIsFirst(line[1..], tag);
      forall i: nat {
        OccursShifted(line, tag, i);
      }
      assert !OccursAt(line, tag, 0);
      if After(line, tag) == None {
        forall i: nat ensures !OccursAt(line, tag, i) {
          assert i > 0 ==> !OccursAt(line[1..], tag, i - 1);
        }
      } else {
        var j: nat :| FirstAt(line[1..], tag, j);
        assert line[1..][j + |tag|..] == line[j + 1 + |tag|..];
        forall k: nat | k < j + 1 ensures !OccursAt(line, tag, k) {
          assert k > 0 ==> !OccursAt(line[1..], tag, k - 1);
        }
        assert OccursAt(line[1..], tag, j + 1 - 1);
        assert FirstAt(line, tag, j + 1);
      }
    }
  }

  lemma OccursShifted(line: string, tag: string, i: nat)
    requires line != []
    ensures i > 0 ==> (OccursAt(line, tag, i) <==> OccursAt(line[1..], tag, i - 1))
  {
    if 0 < i <= |line| {
      assert line[1..][i - 1..] == line[i..];
    }
  }

  predicate EndsWith(s: string, t: string) {
    |t| <= |s| && s[|s| - |t|..] == t
  }

  predicate StartsWith(s: string, t: string) {
    t <= s
  }

  /** s.split("/")[-1], written as the part after the last slash. */
  function LastSegment(s: string): (r: string)
    ensures |r| <= |s| && s[|s| - |r|..] == r && '/' !in r
  {
    if '/' in s then LastSegment(s[1..]) else s
  }

  lemma {:induction false} LastSegmentAfter(dir: string, name: string)
    requires '/' !in name
    ensures LastSegment(dir + "/" + name) == name
  {
    var s := dir + "/" + name;
    assert s[|dir|] == '/';
    if dir == [] {
      assert s[1..] == name;
    } else {
      assert s[1..] == dir[1..] + "/" + name;
      LastSegmentAfter(dir[1..], name);
    }
  }

  lemma {:induction false} LastSegmentIsLastPiece(s: string)
    ensures LastSegment(s) == Split(s, '/')[|Split(s, '/')| - 1]
  {
    if '/' !in s {
      SplitOnePiece(s, '/');
    } else {
      LastSegmentIsLastPiece(s[1..]);
      if s[0] != '/' {
        SplitHasPieces(s[1..], '/');
      }
    }
  }

  lemma {:induction false} SplitOnePiece(s: string, c: char)
    requires c !in s
    ensures Split(s, c) == [s]
  {
    if s != [] {
      SplitOnePiece(s[1..], c);
      assert s == [s[0]] + s[1..];
    }
  }

  lemma PrependPiece(x: char, r: seq<string>, t: seq<string>)
    requires |r| > 0
    ensures [[x] + (r + t)[0]] + (r + t)[1..] == [[x] + r[0]] + r[1..] + t
  {
  }

  /** Splitting at one more delimiter joins the pieces of the two sides. */
  lemma {:induction false} SplitAtDelimiter(a: string, b: string, c: char)
    ensures Split(a + [c] + b, c) == Split(a, c) + Split(b, c)
  {
    var s := a + [c] + b;
    if a == [] {
      assert s[0] == c && s[1..] == b;
    } else {
      assert s[0] == a[0] && s[1..] == a[1..] + [c] + b;
      SplitAtDelimiter(a[1..], b, c);
      PrependPiece(a[0], Split(a[1..], c), Split(b, c));
      assert [[]] + (Split(a[1..], c) + Split(b, c)) == [[]] + Split(a[1..], c) + Split(b, c);
    }
  }

  lemma {:induction false} SplitHasPieces(s: string, c: char)
    requires c in s
    ensures |Split(s, c)| >= 2
  {
    if s[0] != c {
      SplitHasPieces(s[1..], c);
    }
  }

  /** A suffix without a slash is a suffix of the last segment. */
  lemma {:induction false} SuffixOfLastSegment(s: string, t: string)
    requires '/' !in t
    ensures EndsWith(s, t) <==> EndsWith(LastSegment(s), t)
  {
    if '/' in s {
      SuffixOfLastSegment(s[1..], t);
      if EndsWith(s, t) {
        assert s != t;
        assert |t| < |s|;
        assert s[1..][|s| - 1 - |t|..] == s[|s| - |t|..];
      }
      if EndsWith(s[1..], t) {
        assert s[1..][|s| - 1 - |t|..] == s[|s| - |t|..];
      }
    }
  }
}
