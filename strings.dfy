/**
  The handful of `str` operations the bot relies on, over `seq<char>`:
  prefix and suffix tests, `find`, `split_once`, `rsplit_once`, `split`,
  `trim_start`, unsigned integer parsing (`parse::<u8>`, `parse::<u64>`) and
  decimal rendering (`to_string` / `format!("{}")` of an integer).
  Indices are character indices; every literal the bot searches for is ASCII.
*/
module Strings {
  import opened Results

  predicate StartsWith(s: string, prefix: string) {
    |prefix| <= |s| && s[..|prefix|] == prefix
  }

  predicate EndsWith(s: string, suffix: string) {
    |suffix| <= |s| && s[|s| - |suffix|..] == suffix
  }

  /** `pat` occurs in `s` starting at index `i`. */
  predicate OccursAt(s: string, pat: string, i: int) {
    0 <= i && i + |pat| <= |s| && s[i..i + |pat|] == pat
  }

  predicate Contains(s: string, pat: string) {
    exists i | 0 <= i <= |s| - |pat| :: OccursAt(s, pat, i)
  }

  /** `str::find`: the index of the first occurrence of `pat` in `s`. */
  function Find(s: string, pat: string): (r: Option<nat>)
    ensures r.Some? ==> OccursAt(s, pat, r.value)
    ensures r.Some? ==> forall j :: 0 <= j < r.value ==> !OccursAt(s, pat, j)
    ensures r.None? <==> !Contains(s, pat)
  {
    FindFrom(s, pat, 0)
  }

  /** Whether `pat` occurs at `j` depends only on the text up to the occurrence's end. */
  lemma OccursInPrefix(s: string, t: string, pat: string, j: nat)
    requires j + |pat| <= |s|
    ensures OccursAt(s + t, pat, j) <==> OccursAt(s, pat, j)
  {
    assert (s + t)[j..j + |pat|] == s[j..j + |pat|];
  }

  /** An occurrence with none before it is the one `Find` answers. */
  lemma FindFirst(s: string, pat: string, i: nat)
    requires OccursAt(s, pat, i)
    requires forall j :: 0 <= j < i ==> !OccursAt(s, pat, j)
    ensures Find(s, pat) == Some(i)
  {
    assert Contains(s, pat) by {
      assert 0 <= i <= |s| - |pat|;
    }
  }

  function FindFrom(s: string, pat: string, from: nat): (r: Option<nat>)
    requires forall j :: 0 <= j < from ==> !OccursAt(s, pat, j)
    ensures r.Some? ==> from <= r.value && OccursAt(s, pat, r.value)
    ensures r.Some? ==> forall j :: 0 <= j < r.value ==> !OccursAt(s, pat, j)
    ensures r.None? ==> forall j :: 0 <= j ==> !OccursAt(s, pat, j)
    decreases |s| - from
  {
    if from + |pat| > |s| then None
    else if s[from..from + |pat|] == pat then Some(from)
    else FindFrom(s, pat, from + 1)
  }

  /** The index of the last occurrence of the character `c` in `s`. */
  function FindLast(s: string, c: char): (r: Option<nat>)
    ensures r.Some? ==> r.value < |s| && s[r.value] == c
    ensures r.Some? ==> forall j :: r.value < j < |s| ==> s[j] != c
    ensures r.None? ==> forall j :: 0 <= j < |s| ==> s[j] != c
  {
    if |s| == 0 then None
    else if s[|s| - 1] == c then Some(|s| - 1)
    else FindLast(s[..|s| - 1], c)
  }

  /** `str::split_once(c)`: the text before and after the first `c`. */
  function SplitOnce(s: string, c: char): (r: Option<(string, string)>)
    ensures r.Some? ==> s == r.value.0 + [c] + r.value.1
    ensures r.Some? ==> c !in r.value.0
    ensures r.None? <==> c !in s
  {
    var found := Find(s, [c]);
    var end := if found.Some? then found.value else |s|;
    assert forall j :: 0 <= j < end ==> s[j] != c by {
      forall j | 0 <= j < end ensures s[j] != c {
        assert !OccursAt(s, [c], j);
        assert s[j..j + 1] == [s[j]];
      }
    }
    match found
    case None => None
    case Some(i) =>
      assert s == s[..i] + [c] + s[i + 1..];
      Some((s[..i], s[i + 1..]))
  }

  /** `str::rsplit_once(c)`: the text before and after the last `c`. */
  function RSplitOnce(s: string, c: char): (r: Option<(string, string)>)
    ensures r.Some? ==> s == r.value.0 + [c] + r.value.1
    ensures r.Some? ==> c !in r.value.1
    ensures r.None? <==> c !in s
  {
    match FindLast(s, c)
    case None => None
    case Some(i) =>
      assert s == s[..i] + [c] + s[i + 1..];
      Some((s[..i], s[i + 1..]))
  }

  /** A string split at its last `c` splits the same way wherever it came from. */
  lemma RSplitOnceOf(before: string, c: char, after: string)
    requires c !in after
    ensures RSplitOnce(before + [c] + after, c) == Some((before, after))
  {
    var s := before + [c] + after;
    var (b, a) := RSplitOnce(s, c).value;
    assert s == b + [c] + a;
    assert s[|before|] == c && s[|b|] == c;
    assert forall k :: |b| < k < |s| ==> s[k] == a[k - |b| - 1];
    assert forall k :: |before| < k < |s| ==> s[k] == after[k - |before| - 1];
    assert |b| == |before|;
    assert b == s[..|b|] == before;
    assert a == s[|b| + 1..] == after;
  }

  /** `str::split(c)`: the pieces between the occurrences of `c`; never empty. */
  function Split(s: string, c: char): (r: seq<string>)
    ensures |r| > 0
    ensures forall k :: 0 <= k < |r| ==> c !in r[k]
    decreases |s|
  {
    match SplitOnce(s, c)
    case None => [s]
    case Some((before, after)) => [before] + Split(after, c)
  }

  /** A string split at the first `c` splits the same way wherever it came from. */
  lemma SplitOnceOf(before: string, c: char, after: string)
    requires c !in before
    ensures SplitOnce(before + [c] + after, c) == Some((before, after))
  {
    var s := before + [c] + after;
    var (b, a) := SplitOnce(s, c).value;
    assert s[|before|] == c;
    assert forall i :: 0 <= i < |before| ==> s[i] == before[i];
    assert forall i :: 0 <= i < |b| ==> s[i] == b[i];
    assert s[|b|] == c;
    assert |b| == |before|;
    assert b == s[..|b|] == before;
    assert a == s[|b| + 1..] == after;
  }

  /** Concatenation of `pieces` with `c` between neighbours: the inverse of `Split`. */
  function Join(pieces: seq<string>, c: char): string
    requires |pieces| > 0
  {
    if |pieces| == 1 then pieces[0] else pieces[0] + [c] + Join(pieces[1..], c)
  }

  lemma {:induction false} JoinSplit(s: string, c: char)
    ensures Join(Split(s, c), c) == s
    decreases |s|
  {
    match SplitOnce(s, c)
    case None =>
    case Some((before, after)) =>
      JoinSplit(after, c);
      assert Split(s, c)[1..] == Split(after, c);
  }

  /** A join starts with its first piece. */
  lemma JoinFirst(pieces: seq<string>, c: char)
    requires |pieces| > 0
    ensures |Join(pieces, c)| >= |pieces[0]| && Join(pieces, c)[..|pieces[0]|] == pieces[0]
  {
    if |pieces| > 1 {
      assert Join(pieces, c) == pieces[0] + ([c] + Join(pieces[1..], c));
    }
  }

  /** Splitting the join of pieces free of `c` gives the pieces back. */
  lemma {:induction false} SplitJoin(pieces: seq<string>, c: char)
    requires |pieces| > 0
    requires forall k :: 0 <= k < |pieces| ==> c !in pieces[k]
    ensures Split(Join(pieces, c), c) == pieces
    decreases |pieces|
  {
    if |pieces| == 1 {
      assert SplitOnce(pieces[0], c).None?;
    } else {
      SplitJoinFirst(pieces, c);
      SplitJoin(pieces[1..], c);
      assert pieces == [pieces[0]] + pieces[1..];
    }
  }

  /** Splitting a join of two pieces or more cuts off the first piece, which holds no `c`. */
  lemma SplitJoinFirst(pieces: seq<string>, c: char)
    requires |pieces| > 1 && c !in pieces[0]
    ensures Split(Join(pieces, c), c) == [pieces[0]] + Split(Join(pieces[1..], c), c)
  {
    var rest := Join(pieces[1..], c);
    SplitOnceOf(pieces[0], c, rest);
  }

  /** Rust's `char::is_whitespace`: the Unicode White_Space property. */
  predicate IsWhitespace(c: char) {
    c == ' ' || ('\t' <= c <= '\r') || c == '\U{85}' || c == '\U{A0}' || c == '\U{1680}'
    || ('\U{2000}' <= c <= '\U{200A}') || c == '\U{2028}' || c == '\U{2029}'
    || c == '\U{202F}' || c == '\U{205F}' || c == '\U{3000}'
  }

  /** `str::trim_start`: `s` without its leading whitespace. */
  function TrimStart(s: string): (r: string)
    ensures |r| <= |s|
  {
    if |s| > 0 && IsWhitespace(s[0]) then TrimStart(s[1..]) else s
  }

  /** Trimming keeps a suffix of `s`, drops only whitespace, and leaves no whitespace in front. */
  lemma {:induction false} TrimStartStrips(s: string)
    ensures var r := TrimStart(s);
      && r == s[|s| - |r|..]
      && (forall j :: 0 <= j < |s| - |r| ==> IsWhitespace(s[j]))
      && (r == [] || !IsWhitespace(r[0]))
    decreases |s|
  {
    if |s| > 0 && IsWhitespace(s[0]) {
      TrimStartStrips(s[1..]);
      var r := TrimStart(s);
      assert s[1..][|s| - 1 - |r|..] == s[|s| - |r|..];
      forall j | 0 <= j < |s| - |r|
        ensures IsWhitespace(s[j])
      {
        if j > 0 {
          assert s[j] == s[1..][j - 1];
        }
      }
    }
  }

  /** Trimming removes exactly a whitespace run in front of text that does not start with whitespace. */
  lemma {:induction false} TrimStartOf(ws: string, t: string)
    requires forall j :: 0 <= j < |ws| ==> IsWhitespace(ws[j])
    requires t == [] || !IsWhitespace(t[0])
    ensures TrimStart(ws + t) == t
    decreases |ws|
  {
    if ws == [] {
      assert ws + t == t;
    } else {
      assert (ws + t)[0] == ws[0];
      assert (ws + t)[1..] == ws[1..] + t;
      TrimStartOf(ws[1..], t);
    }
  }

  predicate IsDigit(c: char) {
    '0' <= c <= '9'
  }

  predicate AllDigits(s: string) {
    forall j :: 0 <= j < |s| ==> IsDigit(s[j])
  }

  /** The value of a string of decimal digits, most significant first. */
  function DigitsValue(s: string): nat
    requires AllDigits(s)
  {
    if |s| == 0 then 0
    else DigitsValue(s[..|s| - 1]) * 10 + (s[|s| - 1] as int - '0' as int)
  }

  /** The digits of an unsigned literal: `s` without one leading `+`, if it has one. */
  function UnsignedDigits(s: string): (r: string)
    ensures s == r || s == "+" + r
  {
    if |s| > 0 && s[0] == '+' then s[1..] else s
  }

  /**
    Rust's `str::parse` for an unsigned integer type whose values are those
    below `bound`: an optional leading `+`, then at least one ASCII digit
    (leading zeros allowed); no sign-only, empty or out-of-range input.
  */
  function ParseUnsigned(s: string, bound: nat): (r: Option<nat>)
    ensures r.Some? <==> |UnsignedDigits(s)| > 0 && AllDigits(UnsignedDigits(s)) && DigitsValue(UnsignedDigits(s)) < bound
    ensures r.Some? ==> r.value == DigitsValue(UnsignedDigits(s)) && r.value < bound
    ensures r.Some? ==> |s| > 0 && (IsDigit(s[0]) || s[0] == '+')
  {
    var digits := UnsignedDigits(s);
    if |digits| == 0 || !AllDigits(digits) then None
    else if DigitsValue(digits) < bound then Some(DigitsValue(digits))
    else None
  }

  const U8Bound: nat := 0x100
  const U64Bound: nat := 0x1_0000_0000_0000_0000

  function ParseU8(s: string): Option<nat> {
    ParseUnsigned(s, U8Bound)
  }

  function ParseU64(s: string): Option<nat> {
    ParseUnsigned(s, U64Bound)
  }

  function DigitChar(d: nat): char
    requires d < 10
  {
    ('0' as int + d) as char
  }

  /** Decimal rendering of `n`, as Rust's `to_string` prints an integer. */
  function Decimal(n: nat): (r: string)
    ensures |r| > 0 && AllDigits(r)
  {
    if n < 10 then [DigitChar(n)] else Decimal(n / 10) + [DigitChar(n % 10)]
  }

  lemma {:induction false} DecimalValue(n: nat)
    ensures DigitsValue(Decimal(n)) == n
  {
    if n >= 10 {
      DecimalValue(n / 10);
      var d := Decimal(n);
      assert d[..|d| - 1] == Decimal(n / 10);
    }
  }

  /** Parsing a rendered number gives the number back. */
  lemma ParseDecimal(n: nat, bound: nat)
    requires n < bound
    ensures ParseUnsigned(Decimal(n), bound) == Some(n)
  {
    DecimalValue(n);
  }
}
