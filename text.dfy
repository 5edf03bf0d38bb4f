/** String operations of the Python 2 standard library that the modelled code
    relies on: whitespace stripping and splitting, ASCII lower-casing, search
    for a character, prefixes and suffixes, and the `int()` conversion. */
module Text {

  /** The characters Python 2 `str.strip()` and `str.split()` treat as whitespace. */
  predicate IsSpace(c: char) {
    c == ' ' || c == '\t' || c == '\n' || c == '\r' || c == '\U{0B}' || c == '\U{0C}'
  }

  predicate NoSpace(s: string) {
    forall k :: 0 <= k < |s| ==> !IsSpace(s[k])
  }

  /** Number of whitespace characters at the start of `s`. */
  function LeadingSpaces(s: string): (n: nat)
    ensures n <= |s|
    ensures forall k :: 0 <= k < n ==> IsSpace(s[k])
    ensures n < |s| ==> !IsSpace(s[n])
  {
    if s == [] || !IsSpace(s[0]) then 0 else 1 + LeadingSpaces(s[1..])
  }

  /** Length of `s` once its trailing whitespace is dropped. */
  function TrimmedEnd(s: string): (n: nat)
    ensures n <= |s|
    ensures forall k :: n <= k < |s| ==> IsSpace(s[k])
    ensures n > 0 ==> !IsSpace(s[n - 1])
  {
    if s == [] || !IsSpace(s[|s| - 1]) then |s| else TrimmedEnd(s[..|s| - 1])
  }

  /** `str.strip()`: `s` without its leading and trailing whitespace. */
  function Strip(s: string): (r: string)
    ensures |r| <= |s|
    ensures r == [] <==> forall k :: 0 <= k < |s| ==> IsSpace(s[k])
  {
    var lo := LeadingSpaces(s);
    var hi := TrimmedEnd(s[lo..]);
    assert hi == 0 <==> forall k :: 0 <= k < |s| ==> IsSpace(s[k]) by {
      assert forall k :: lo <= k < |s| ==> s[k] == s[lo..][k - lo];
    }
    s[lo..lo + hi]
  }

  /** The stripped text is the slice of `s` after its leading whitespace,
      neither begins nor ends with whitespace, and only whitespace follows it. */
  lemma StripShape(s: string)
    ensures var r := Strip(s);
            var lo := LeadingSpaces(s);
            lo + |r| <= |s| && r == s[lo..lo + |r|]
            && (r != [] ==> !IsSpace(r[0]) && !IsSpace(r[|r| - 1]))
            && forall k :: lo + |r| <= k < |s| ==> IsSpace(s[k])
  {
    StripSlice(s);
    StripEdges(s);
    StripTail(s);
  }

  lemma StripSlice(s: string)
    ensures LeadingSpaces(s) + |Strip(s)| <= |s| && Strip(s) == s[LeadingSpaces(s)..LeadingSpaces(s) + |Strip(s)|]
  {
  }

  lemma StripEdges(s: string)
    ensures Strip(s) != [] ==> !IsSpace(Strip(s)[0]) && !IsSpace(Strip(s)[|Strip(s)| - 1])
  {
    var lo := LeadingSpaces(s);
    var t := s[lo..];
    var hi := TrimmedEnd(t);
    if hi > 0 {
      assert s[lo..lo + hi][0] == t[0] == s[lo];
      assert s[lo..lo + hi][hi - 1] == t[hi - 1];
    }
  }

  lemma StripTail(s: string)
    ensures forall k :: LeadingSpaces(s) + |Strip(s)| <= k < |s| ==> IsSpace(s[k])
  {
    SuffixOfDrop(s, LeadingSpaces(s), TrimmedEnd(s[LeadingSpaces(s)..]), IsSpace);
  }

  /** What holds from index `hi` of `s[lo..]` on holds from index `lo + hi` of `s` on. */
  lemma SuffixOfDrop<T>(s: seq<T>, lo: nat, hi: nat, P: T -> bool)
    requires lo <= |s| && forall j :: hi <= j < |s[lo..]| ==> P(s[lo..][j])
    ensures forall k :: lo + hi <= k < |s| ==> P(s[k])
  {
    forall k | lo + hi <= k < |s|
      ensures P(s[k])
    {
      assert s[lo..][k - lo] == s[k];
    }
  }

  /** The tokens of `s` read left to right, and whether the last character of
      `s` belongs to the last token (so that a further non-whitespace
      character would extend it). */
  function Scan(s: string): (r: (seq<string>, bool))
    ensures forall i :: 0 <= i < |r.0| ==> r.0[i] != [] && NoSpace(r.0[i])
    ensures r.1 ==> r.0 != []
  {
    if s == [] then ([], false)
    else
      var (toks, open) := Scan(s[..|s| - 1]);
      var c := s[|s| - 1];
      if IsSpace(c) then (toks, false)
      else if open then (toks[..|toks| - 1] + [toks[|toks| - 1] + [c]], true)
      else (toks + [[c]], true)
  }

  /** `str.split()` without arguments: the maximal runs of non-whitespace characters. */
  function Split(s: string): (r: seq<string>)
    ensures forall i :: 0 <= i < |r| ==> r[i] != [] && NoSpace(r[i])
  {
    Scan(s).0
  }

  /** One more character: whitespace closes the scan, a non-whitespace
      character extends the open token or starts a new one. */
  lemma ScanSnoc(s: string, c: char)
    ensures Scan(s + [c]) == (
      if IsSpace(c) then (Scan(s).0, false)
      else if Scan(s).1 then (Scan(s).0[..|Scan(s).0| - 1] + [Scan(s).0[|Scan(s).0| - 1] + [c]], true)
      else (Scan(s).0 + [[c]], true))
  {
    assert (s + [c])[..|s|] == s;
    assert (s + [c])[|s|] == c;
  }

  /** A lone token is split into itself. */
  lemma {:induction false} SplitToken(s: string)
    requires s != [] && NoSpace(s)
    ensures Scan(s) == ([s], true)
  {
    var p, c := s[..|s| - 1], s[|s| - 1];
    assert s == p + [c];
    ScanSnoc(p, c);
    if p == [] {
      assert Scan(p) == ([], false);
      assert [] + [[c]] == [s];
    } else {
      SplitToken(p);
      assert [p][..0] + [p + [c]] == [s];
    }
  }

  /** After whitespace the scan is closed: the next character starts a new token. */
  lemma {:induction false} ScanJoin(a: string, c: char, b: string)
    requires IsSpace(c)
    ensures Scan(a + [c] + b) == (Scan(a).0 + Scan(b).0, Scan(b).1)
    decreases |b|
  {
    if b == [] {
      assert a + [c] + b == a + [c];
      ScanSnoc(a, c);
      assert Scan(b) == ([], false);
      assert Scan(a).0 + [] == Scan(a).0;
    } else {
      var b', d := b[..|b| - 1], b[|b| - 1];
      assert b == b' + [d];
      assert a + [c] + b == (a + [c] + b') + [d];
      ScanJoin(a, c, b');
      ScanSnoc(a + [c] + b', d);
      ScanSnoc(b', d);
      if !IsSpace(d) {
        ExtendTokens(Scan(a).0, Scan(b').0, Scan(b').1, d);
      }
    }
  }

  /** Extending the last token (or starting a new one) after a prefix of
      complete tokens leaves the prefix alone. */
  lemma ExtendTokens(ta: seq<string>, tb: seq<string>, open: bool, d: char)
    requires open ==> tb != []
    ensures var t := ta + tb;
            (if open then t[..|t| - 1] + [t[|t| - 1] + [d]] else t + [[d]])
            == ta + (if open then tb[..|tb| - 1] + [tb[|tb| - 1] + [d]] else tb + [[d]])
  {
    var t := ta + tb;
    if open {
      var lastTok := tb[|tb| - 1] + [d];
      assert t[..|t| - 1] == ta + tb[..|tb| - 1];
      assert t[|t| - 1] == tb[|tb| - 1];
      assert (ta + tb[..|tb| - 1]) + [lastTok] == ta + (tb[..|tb| - 1] + [lastTok]);
    } else {
      assert t + [[d]] == ta + (tb + [[d]]);
    }
  }

  /** Tokens of two texts joined by one whitespace character are the tokens of
      the first followed by the tokens of the second. */
  lemma SplitJoin(a: string, c: char, b: string)
    requires IsSpace(c)
    ensures Split(a + [c] + b) == Split(a) + Split(b)
  {
    ScanJoin(a, c, b);
  }

  /** ASCII lower-casing, as `string.lower` does on byte strings in the C locale. */
  function LowerChar(c: char): (r: char)
    ensures 'A' <= c <= 'Z' ==> r as int == c as int + 32
    ensures !('A' <= c <= 'Z') ==> r == c
  {
    if 'A' <= c <= 'Z' then (c as int + 32) as char else c
  }

  function Lower(s: string): (r: string)
    ensures |r| == |s|
    ensures forall k :: 0 <= k < |s| ==> r[k] == LowerChar(s[k])
  {
    seq(|s|, k requires 0 <= k < |s| => LowerChar(s[k]))
  }

  /** `s.find(c)`: the first index of `c` in `s`, or -1. */
  function Find(s: string, c: char): (r: int)
    ensures -1 <= r < |s|
    ensures r == -1 <==> c !in s
    ensures r >= 0 ==> s[r] == c && c !in s[..r]
  {
    if s == [] then -1
    else if s[0] == c then 0
    else var r := Find(s[1..], c); if r == -1 then -1 else r + 1
  }

  /** `s.rfind(c)`: the last index of `c` in `s`, or -1. */
  function RFind(s: string, c: char): (r: int)
    ensures -1 <= r < |s|
    ensures r >= 0 ==> s[r] == c
    ensures forall k :: r < k < |s| ==> s[k] != c
  {
    if s == [] then -1
    else if s[|s| - 1] == c then |s| - 1
    else RFind(s[..|s| - 1], c)
  }

  predicate OccursAt(s: string, pat: string, i: int) {
    0 <= i && i + |pat| <= |s| && s[i..i + |pat|] == pat
  }

  /** `s.find(pat)` for a substring: the first index where `pat` occurs in `s`
      at or after `from`, or -1. */
  function FindSubFrom(s: string, pat: string, from: nat): (r: int)
    requires from <= |s|
    ensures r == -1 || (from <= r && OccursAt(s, pat, r))
    ensures forall i :: from <= i && (r == -1 || i < r) ==> !OccursAt(s, pat, i)
    decreases |s| - from
  {
    if from + |pat| > |s| then -1
    else if s[from..from + |pat|] == pat then from
    else FindSubFrom(s, pat, from + 1)
  }

  function FindSub(s: string, pat: string): (r: int)
    ensures r == -1 || OccursAt(s, pat, r)
    ensures forall i :: (r == -1 || i < r) ==> !OccursAt(s, pat, i)
  {
    FindSubFrom(s, pat, 0)
  }

  /** `os.path.join(a, b)` on POSIX: an absolute `b` replaces `a`; otherwise a
      single `/` separates them unless `a` is empty or already ends with one. */
  function JoinPath(a: string, b: string): (r: string)
    ensures StartsWith(b, "/") ==> r == b
    ensures !StartsWith(b, "/") ==> EndsWith(r, b) && StartsWith(r, a)
  {
    if StartsWith(b, "/") then b
    else if a == [] || EndsWith(a, "/") then a + b
    else a + "/" + b
  }

  predicate StartsWith(s: string, p: string) {
    |p| <= |s| && s[..|p|] == p
  }

  predicate EndsWith(s: string, p: string) {
    |p| <= |s| && s[|s| - |p|..] == p
  }

  /** Python's `string.join(words)`: the words separated by single spaces. */
  function JoinWords(ws: seq<string>): string {
    if ws == [] then [] else if |ws| == 1 then ws[0] else ws[0] + " " + JoinWords(ws[1..])
  }

  // ---------------------------------------------------------------------------
  // int(s) and int(s, 8)

  function DigitValue(c: char): int {
    c as int - '0' as int
  }

  predicate IsDigit(c: char, base: int) {
    '0' <= c <= '9' && DigitValue(c) < base
  }

  predicate AllDigits(s: string, base: int) {
    forall k :: 0 <= k < |s| ==> IsDigit(s[k], base)
  }

  /** Value of a digit string read most significant digit first. */
  function DigitsValue(s: string, base: int): int
    requires AllDigits(s, base)
  {
    if s == [] then 0 else DigitsValue(s[..|s| - 1], base) * base + DigitValue(s[|s| - 1])
  }

  lemma {:induction false} DigitsValueNonNegative(s: string, base: int)
    requires AllDigits(s, base) && base >= 2
    ensures DigitsValue(s, base) >= 0
  {
    if s != [] {
      DigitsValueNonNegative(s[..|s| - 1], base);
    }
  }

  /** The unsigned part of a numeral: its digits, after the optional `0o` prefix
      that base 8 allows. */
  function Unprefixed(s: string, base: int): string {
    if base == 8 && |s| >= 2 && s[0] == '0' && (s[1] == 'o' || s[1] == 'O') then s[2..] else s
  }

  /** Python's `int(s, base)` for base 10 or 8: surrounding whitespace is
      ignored, one optional sign, whitespace after the sign is skipped as C's
      `strtol` does, then at least one digit; anything else is a ValueError,
      here None. */
  function ParseInt(s: string, base: int): Option<int>
    requires base == 10 || base == 8
  {
    ParseStripped(Strip(s), base)
  }

  /** `int()` on text without whitespace at either end. */
  function ParseStripped(t: string, base: int): Option<int>
    requires base == 10 || base == 8
  {
    var neg := |t| > 0 && t[0] == '-';
    var body := if |t| > 0 && (t[0] == '-' || t[0] == '+') then t[1..][LeadingSpaces(t[1..])..] else t;
    var digits := Unprefixed(body, base);
    if digits != [] && AllDigits(digits, base) then
      Some(if neg then -DigitsValue(digits, base) else DigitsValue(digits, base))
    else None
  }

  /** A number is an optional sign and a nonempty run of digits; a blank
      string is none. */
  lemma ParseIntShape(s: string, base: int)
    requires base == 10 || base == 8
    ensures var r := ParseInt(s, base);
            (r.Some? ==> exists d :: d != [] && AllDigits(d, base)
                           && (r.value == DigitsValue(d, base) || r.value == -DigitsValue(d, base)))
            && (Strip(s) == [] ==> r.None?)
  {
  }

  lemma ParseIntDecimal(d: string)
    requires d != [] && AllDigits(d, 10)
    ensures ParseInt(d, 10) == Some(DigitsValue(d, 10))
  {
    assert !IsSpace(d[0]) && !IsSpace(d[|d| - 1]);
    StripNoEdgeSpace(d);
  }

  /** A sign, any whitespace, then digits: the digits' value with that sign. */
  lemma ParseIntSigned(sign: char, w: string, d: string, base: int)
    requires base == 10 || base == 8
    requires (sign == '+' || sign == '-') && forall k :: 0 <= k < |w| ==> IsSpace(w[k])
    requires d != [] && AllDigits(d, base)
    ensures ParseInt([sign] + w + d, base) == Some(if sign == '-' then -DigitsValue(d, base) else DigitsValue(d, base))
  {
    var s := [sign] + w + d;
    assert s[0] == sign && s[|s| - 1] == d[|d| - 1];
    StripNoEdgeSpace(s);
    assert s[1..] == w + d;
    assert !IsSpace(d[0]) by { assert IsDigit(d[0], base); }
    LeadingSpacesPrefix(w, d);
    assert (w + d)[|w|..] == d;
    SignedStripped(s, d, base);
  }

  lemma SignedStripped(t: string, d: string, base: int)
    requires base == 10 || base == 8
    requires |t| > 0 && (t[0] == '+' || t[0] == '-') && t[1..][LeadingSpaces(t[1..])..] == d
    requires d != [] && AllDigits(d, base)
    ensures ParseStripped(t, base) == Some(if t[0] == '-' then -DigitsValue(d, base) else DigitsValue(d, base))
  {
    UnprefixedDigits(d, base);
  }

  lemma UnprefixedDigits(d: string, base: int)
    requires AllDigits(d, base)
    ensures Unprefixed(d, base) == d
  {
    if |d| >= 2 {
      assert IsDigit(d[1], base);
    }
  }

  lemma {:induction false} LeadingSpacesPrefix(w: string, d: string)
    requires forall k :: 0 <= k < |w| ==> IsSpace(w[k])
    requires d != [] && !IsSpace(d[0])
    ensures LeadingSpaces(w + d) == |w|
  {
    if w == [] {
      assert w + d == d;
    } else {
      assert (w + d)[1..] == w[1..] + d;
      LeadingSpacesPrefix(w[1..], d);
    }
  }

  lemma StripNoEdgeSpace(s: string)
    requires s != [] && !IsSpace(s[0]) && !IsSpace(s[|s| - 1])
    ensures Strip(s) == s
  {
    assert LeadingSpaces(s) == 0;
    assert s[0..] == s;
  }

  datatype Option<T> = None | Some(value: T)
}
