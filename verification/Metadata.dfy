/** metadata-parser.c: a `;`/`=` attribute parser that folds segments into a record. */
module Metadata {
  import opened Text

  /** struct video_encode_metadata_t and its identical twin for decoding. */
  datatype VideoMetadata = VideoMetadata(hintId: int, state: int)

  /** sizeof(attribute) - 1 and sizeof(value) - 1 in both parsers. */
  const FIELD_MAX: nat := 1023

  function Min(a: nat, b: nat): nat {
    if a > b then b else a
  }

  // ----- atoi

  predicate IsDigit(c: char) { '0' <= c <= '9' }

  predicate IsSpace(c: char) { c == ' ' || '\t' <= c <= '\r' }

  function Digits(s: string, acc: nat): nat {
    if s == [] || !IsDigit(s[0]) then acc else Digits(s[1..], 10 * acc + (s[0] as int - '0' as int))
  }

  /** atoi without the undefined overflow: blanks, an optional sign, then digits. */
  function Atoi(s: string): int {
    if s != [] && IsSpace(s[0]) then Atoi(s[1..])
    else if s != [] && s[0] == '-' then 0 - Digits(s[1..], 0)
    else if s != [] && s[0] == '+' then Digits(s[1..], 0)
    else Digits(s, 0)
  }

  // ----- one segment

  function IndexOf(s: string, c: char): (k: nat)
    ensures k <= |s| && c !in s[..k] && (k < |s| ==> s[k] == c)
  {
    if s == [] || s[0] == c then 0
    else
      var k := IndexOf(s[1..], c);
      assert s[..1 + k] == [s[0]] + s[1..][..k];
      1 + k
  }

  /** parse_metadata: attribute and value of a segment, cut to their buffers; both empty without `=`. */
  function ParseSegment(seg: string): (string, string) {
    var k := IndexOf(seg, '=');
    if k == |seg| then ("", "")
    else
      var attribute := seg[..Min(k, FIELD_MAX)];
      var room := Min(|seg| - |attribute| - 1, FIELD_MAX);
      (attribute, seg[k + 1..][..Min(room, |seg| - k - 1)])
  }

  function Step(m: VideoMetadata, seg: string): VideoMetadata {
    var (attribute, value) := ParseSegment(seg);
    var m1 := if attribute == "hint_id" && |value| > 0 then m.(hintId := Atoi(value)) else m;
    if attribute == "state" && |value| > 0 then m1.(state := Atoi(value)) else m1
  }

  function Fold(m: VideoMetadata, segs: seq<string>): VideoMetadata {
    if segs == [] then m else Step(Fold(m, segs[..|segs| - 1]), segs[|segs| - 1])
  }

  function Parse(m: VideoMetadata, metadata: string): VideoMetadata {
    Fold(m, Tokens(metadata, {';'}))
  }

  /** parse_video_encode_metadata, and word for word parse_video_decode_metadata. */
  method ParseVideoMetadata(metadata: string, initial: VideoMetadata) returns (m: VideoMetadata)
    ensures m == Parse(initial, metadata)
  {
    hide Atoi;
    hide Tokens;
    hide ParseSegment;
    var segs := Tokenize(metadata, {';'});
    m := initial;
    for i := 0 to |segs|
      invariant m == Fold(initial, segs[..i])
    {
      assert segs[..i + 1][..i] == segs[..i];
      var (attribute, value) := ParseSegment(segs[i]);
      if |attribute| == |"hint_id"| && attribute == "hint_id" {
        if |value| > 0 {
          m := m.(hintId := Atoi(value));
        }
      }
      if |attribute| == |"state"| && attribute == "state" {
        if |value| > 0 {
          m := m.(state := Atoi(value));
        }
      }
    }
    assert segs[..|segs|] == segs;
  }

  // ----- what the parser computes

  /** The value that a segment gives an attribute: the text behind the first `=`, up to the buffer size. */
  function ValueFor(seg: string, name: string): Option<string> {
    var k := IndexOf(seg, '=');
    if k < |seg| && seg[..k] == name && k + 1 < |seg| then Some(seg[k + 1..][..Min(|seg| - k - 1, FIELD_MAX)]) else None
  }

  /** The last segment that gives the attribute a value. */
  function LastValue(segs: seq<string>, name: string): Option<string> {
    if segs == [] then None
    else if ValueFor(segs[|segs| - 1], name).Some? then ValueFor(segs[|segs| - 1], name)
    else LastValue(segs[..|segs| - 1], name)
  }

  function Chosen(v: Option<string>, otherwise: int): int {
    match v case Some(s) => Atoi(s) case None => otherwise
  }

  /** A segment sets a field exactly when it names it before its first `=` and has a value. */
  lemma SegmentMeaning(m: VideoMetadata, seg: string)
    ensures Step(m, seg) == VideoMetadata(Chosen(ValueFor(seg, "hint_id"), m.hintId),
                                          Chosen(ValueFor(seg, "state"), m.state))
  {
    var k := IndexOf(seg, '=');
    hide Atoi;
    hide IndexOf;
    if k < |seg| {
      var attribute := seg[..Min(k, FIELD_MAX)];
      if k > FIELD_MAX {
        assert |attribute| == FIELD_MAX && |seg[..k]| > FIELD_MAX;
      } else {
        assert attribute == seg[..k];
      }
    }
  }

  /** The parser returns the last value of each field, and the initial one where there is none. */
  lemma {:induction false} LastWins(m: VideoMetadata, segs: seq<string>)
    ensures Fold(m, segs) == VideoMetadata(Chosen(LastValue(segs, "hint_id"), m.hintId),
                                           Chosen(LastValue(segs, "state"), m.state))
  {
    if segs != [] {
      var front := segs[..|segs| - 1];
      LastWins(m, front);
      SegmentMeaning(Fold(m, front), segs[|segs| - 1]);
      hide Step;
      hide ValueFor;
      hide Atoi;
    }
  }

  lemma {:induction false} FoldConcat(m: VideoMetadata, a: seq<string>, b: seq<string>)
    ensures Fold(m, a + b) == Fold(Fold(m, a), b)
  {
    if b == [] {
      assert a + b == a;
    } else {
      FoldConcat(m, a, b[..|b| - 1]);
      hide Step;
      assert (a + b)[..|a + b| - 1] == a + b[..|b| - 1];
    }
  }

  /** Segments without `=`, without a value, or with another name play no part. */
  lemma ForeignSegmentsDoNotMatter(m: VideoMetadata, a: seq<string>, seg: string, b: seq<string>)
    requires ValueFor(seg, "hint_id").None? && ValueFor(seg, "state").None?
    ensures Fold(m, a + [seg] + b) == Fold(m, a + b)
  {
    FoldConcat(m, a + [seg], b);
    FoldConcat(m, a, [seg]);
    FoldConcat(m, a, b);
    SegmentMeaning(Fold(m, a), seg);
    hide Step;
    hide ValueFor;
    assert [seg][..0] == [];
  }

  lemma {:induction false} NonEmptyConcat(a: seq<string>, b: seq<string>)
    ensures NonEmpty(a + b) == NonEmpty(a) + NonEmpty(b)
  {
    hide NonEmpty;
    NonEmptyFirst(a);
    if a == [] {
      assert a + b == b;
    } else {
      NonEmptyConcat(a[1..], b);
      NonEmptyFirst(a + b);
      assert (a + b)[1..] == a[1..] + b && (a + b)[0] == a[0];
      var first := if a[0] == [] then [] else [a[0]];
      assert first + (NonEmpty(a[1..]) + NonEmpty(b)) == first + NonEmpty(a[1..]) + NonEmpty(b);
    }
  }

  lemma NonEmptyFirst(a: seq<string>)
    ensures NonEmpty(a) == if a == [] then [] else (if a[0] == [] then [] else [a[0]]) + NonEmpty(a[1..])
  {
  }

  /** Parsing two strings joined by `;` is parsing one after the other. */
  lemma ParseJoined(m: VideoMetadata, a: string, b: string)
    ensures Parse(m, a + ";" + b) == Parse(Parse(m, a), b)
  {
    TokensAreNonEmptyPieces(a, ';');
    TokensAreNonEmptyPieces(b, ';');
    TokensAreNonEmptyPieces(a + ";" + b, ';');
    SplitAtDelimiter(a, b, ';');
    assert a + ";" + b == a + [';'] + b;
    NonEmptyConcat(Split(a, ';'), Split(b, ';'));
    FoldConcat(m, Tokens(a, {';'}), Tokens(b, {';'}));
  }

  // ----- printing and parsing

  function DecimalDigits(n: nat): (s: string)
    ensures |s| > 0 && forall i :: 0 <= i < |s| ==> IsDigit(s[i])
  {
    if n < 10 then [('0' as int + n) as char] else DecimalDigits(n / 10) + [('0' as int + n % 10) as char]
  }

  function Decimal(n: int): string {
    if n < 0 then "-" + DecimalDigits(-n) else DecimalDigits(n)
  }

  function Print(m: VideoMetadata): string {
    "hint_id=" + Decimal(m.hintId) + ";" + ("state=" + Decimal(m.state))
  }

  lemma {:induction false} DigitsSnoc(s: string, d: char, acc: nat)
    requires (forall i :: 0 <= i < |s| ==> IsDigit(s[i])) && IsDigit(d)
    ensures Digits(s + [d], acc) == 10 * Digits(s, acc) + (d as int - '0' as int)
  {
    if s != [] {
      assert (s + [d])[1..] == s[1..] + [d];
      DigitsSnoc(s[1..], d, 10 * acc + (s[0] as int - '0' as int));
    } else {
      assert ([d])[1..] == [] && s + [d] == [d];
    }
  }

  lemma {:induction false} DigitsOfDecimal(n: nat)
    ensures Digits(DecimalDigits(n), 0) == n
  {
    if n >= 10 {
      DigitsOfDecimal(n / 10);
      DigitsSnoc(DecimalDigits(n / 10), ('0' as int + n % 10) as char, 0);
    } else {
      assert DecimalDigits(n)[1..] == [];
    }
  }

  lemma AtoiOfDecimal(n: int)
    ensures Atoi(Decimal(n)) == n && |Decimal(n)| > 0
    ensures forall i :: 0 <= i < |Decimal(n)| ==> IsDigit(Decimal(n)[i]) || Decimal(n)[i] == '-'
  {
    if n < 0 {
      DigitsOfDecimal(-n);
      assert Decimal(n)[1..] == DecimalDigits(-n);
    } else {
      DigitsOfDecimal(n);
    }
  }

  function Pow10(k: nat): nat {
    if k == 0 then 1 else 10 * Pow10(k - 1)
  }

  lemma {:induction false} DecimalLength(n: nat, k: nat)
    requires k > 0 && n < Pow10(k)
    ensures |DecimalDigits(n)| <= k
  {
    assert Pow10(1) == 10;
    if n >= 10 {
      DecimalLength(n / 10, k - 1);
    }
  }

  lemma DecimalFits(n: int)
    requires -0x8000_0000 <= n < 0x8000_0000
    ensures |Decimal(n)| <= 11
  {
    assert Pow10(10) == 10_000_000_000 by {
      assert Pow10(5) == 100_000 by { assert Pow10(2) == 100; }
      assert Pow10(7) == 10_000_000;
      assert Pow10(9) == 1_000_000_000;
    }
    DecimalLength(if n < 0 then -n else n, 10);
  }

  lemma OneSegment(s: string, m: VideoMetadata)
    requires s != "" && ';' !in s
    ensures Parse(m, s) == Step(m, s)
  {
    SplitOnePiece(s, ';');
    TokensAreNonEmptyPieces(s, ';');
    hide Step;
    hide Tokens;
    assert NonEmpty([s]) == [s];
    assert Tokens(s, {';'}) == [s];
    assert [s][..|[s]| - 1] == [];
    assert Fold(m, [s]) == Step(Fold(m, []), s);
  }

  lemma {:induction false} IndexAt(s: string, c: char, k: nat)
    requires k < |s| && s[k] == c && c !in s[..k]
    ensures IndexOf(s, c) == k
  {
    if k > 0 {
      assert s[0] == s[..k][0];
      assert s[1..][..k - 1] == s[..k][1..];
      IndexAt(s[1..], c, k - 1);
    }
  }

  /** A segment `name=value` gives the value, cut to 1023 characters, to that name only, and nothing if it is empty. */
  lemma AttributeOf(name: string, value: string)
    requires '=' !in name
    ensures ValueFor(name + "=" + value, name) ==
            if value == "" then None else Some(if |value| > 1023 then value[..1023] else value)
    ensures forall other :: other != name ==> ValueFor(name + "=" + value, other) == None
  {
    var s := name + "=" + value;
    assert s[..|name|] == name && s[|name| + 1..] == value;
    IndexAt(s, '=', |name|);
    hide IndexOf;
    assert value[..|value|] == value;
  }

  /** A segment without `=` gives nothing. */
  lemma NoAttribute(seg: string, name: string)
    requires '=' !in seg
    ensures ValueFor(seg, name) == None
  {
  }

  /** atoi: blanks, one sign, digits, and then anything that is not a digit. */
  lemma {:induction false} AtoiReads(blanks: string, sign: string, digits: string, rest: string)
    requires forall i :: 0 <= i < |blanks| ==> blanks[i] in {' ', '\t', '\n', 11 as char, 12 as char, '\r'}
    requires sign == "" || sign == "-" || sign == "+"
    requires forall i :: 0 <= i < |digits| ==> '0' <= digits[i] <= '9'
    requires rest != "" ==> !('0' <= rest[0] <= '9')
    requires digits == "" && sign == "" && rest != "" ==>
               rest[0] !in {' ', '\t', '\n', 11 as char, 12 as char, '\r', '-', '+'}
    ensures Atoi(blanks + sign + digits + rest) == if sign == "-" then 0 - Digits(digits, 0) else Digits(digits, 0)
    decreases |blanks|
  {
    var s := blanks + sign + digits + rest;
    DigitsStop(digits, rest, 0);
    if blanks != "" {
      assert s[0] == blanks[0] && s[1..] == blanks[1..] + sign + digits + rest;
      AtoiReads(blanks[1..], sign, digits, rest);
    } else if sign != "" {
      assert s[0] == sign[0] && s[1..] == digits + rest;
    } else {
      assert s == digits + rest;
      if digits != "" {
        assert s[0] == digits[0];
      }
    }
  }

  lemma {:induction false} DigitsStop(digits: string, rest: string, acc: nat)
    requires forall i :: 0 <= i < |digits| ==> IsDigit(digits[i])
    requires rest != "" ==> !IsDigit(rest[0])
    ensures Digits(digits + rest, acc) == Digits(digits, acc)
  {
    if digits == "" {
      assert digits + rest == rest;
    } else {
      assert (digits + rest)[0] == digits[0] && (digits + rest)[1..] == digits[1..] + rest;
      DigitsStop(digits[1..], rest, 10 * acc + (digits[0] as int - '0' as int));
    }
  }

  lemma OneAttribute(m: VideoMetadata, name: string, n: int)
    requires -0x8000_0000 <= n < 0x8000_0000 && (name == "hint_id" || name == "state")
    ensures Parse(m, name + "=" + Decimal(n)) == if name == "hint_id" then m.(hintId := n) else m.(state := n)
  {
    var s := name + "=" + Decimal(n);
    AtoiOfDecimal(n);
    DecimalFits(n);
    AttributeOf(name, Decimal(n));
    SegmentMeaning(m, s);
    assert ';' !in s;
    hide *;
    OneSegment(s, m);
    assert "hint_id"[0] != "state"[0];
  }

  /** Printing a record and parsing it back gives the record, whatever the parser started from. */
  lemma PrintThenParse(m: VideoMetadata, initial: VideoMetadata)
    requires -0x8000_0000 <= m.hintId < 0x8000_0000 && -0x8000_0000 <= m.state < 0x8000_0000
    ensures Parse(initial, Print(m)) == m
  {
    var x, y := Decimal(m.hintId), Decimal(m.state);
    assert "hint_id=" == "hint_id" + "=" && "state=" == "state" + "=";
    assert Print(m) == "hint_id" + "=" + x + ";" + ("state" + "=" + y);
    hide *;
    ParseJoined(initial, "hint_id" + "=" + x, "state" + "=" + y);
    OneAttribute(initial, "hint_id", m.hintId);
    OneAttribute(initial.(hintId := m.hintId), "state", m.state);
  }
}
