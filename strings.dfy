/** String and number helpers shared by the modules of this project: the small part of
    JavaScript's String, Number and Buffer behaviour that the dev server relies on. */
module Strings {

  datatype Option<+T> = None | Some(value: T)

  newtype byte = x: int | 0 <= x < 256

  /** The characters `String.prototype.trim` removes: WhiteSpace and LineTerminator. */
  predicate IsJsWhitespace(c: char) {
    c == '\t' || c == '\n' || c == '\U{0B}' || c == '\U{0C}' || c == '\r' || c == ' '
    || c == '\U{A0}' || c == '\U{1680}' || ('\U{2000}' <= c <= '\U{200A}')
    || c == '\U{2028}' || c == '\U{2029}' || c == '\U{202F}' || c == '\U{205F}'
    || c == '\U{3000}' || c == '\U{FEFF}'
  }

  predicate IsDigit(c: char) { '0' <= c <= '9' }

  predicate AllDigits(s: string) { forall i | 0 <= i < |s| :: IsDigit(s[i]) }

  predicate StartsWith(s: string, prefix: string) {
    |prefix| <= |s| && s[..|prefix|] == prefix
  }

  predicate EndsWith(s: string, suffix: string) {
    |suffix| <= |s| && s[|s| - |suffix|..] == suffix
  }

  /** `p` occurs in `s` starting at index `i`. */
  predicate MatchesAt(s: string, i: int, p: string) {
    0 <= i && i + |p| <= |s| && s[i..i + |p|] == p
  }

  /** `s.includes(p)`: `p` occurs in `s` at some index. */
  predicate Contains(s: string, p: string) {
    exists i | 0 <= i <= |s| :: MatchesAt(s, i, p)
  }

  /** Regrouping a concatenation. */
  lemma ConcatAssoc<T>(a: seq<T>, b: seq<T>, c: seq<T>)
    ensures (a + b) + c == a + (b + c)
  {
  }

  lemma SliceOfTail(s: string, j: int, n: nat)
    requires 1 <= j && j + n <= |s|
    ensures s[j..j + n] == s[1..][j - 1..j - 1 + n]
  {
    var a, b := s[j..j + n], s[1..][j - 1..j - 1 + n];
    assert |a| == |b| && forall k | 0 <= k < n :: a[k] == b[k];
  }

  /** `s.indexOf(p)`: the leftmost occurrence of `p` in `s`, if any. */
  function IndexOf(s: string, p: string): (r: Option<nat>)
    ensures r.Some? ==> MatchesAt(s, r.value, p) && forall j | 0 <= j < r.value :: !MatchesAt(s, j, p)
    ensures r.None? ==> forall j | 0 <= j <= |s| :: !MatchesAt(s, j, p)
    decreases |s|
  {
    if |s| < |p| then None
    else if s[..|p|] == p then Some(0)
    else
      var tail := IndexOf(s[1..], p);
      assert !MatchesAt(s, 0, p);
      assert forall j | 1 <= j <= |s| :: MatchesAt(s, j, p) == MatchesAt(s[1..], j - 1, p) by {
        forall j | 1 <= j <= |s| ensures MatchesAt(s, j, p) == MatchesAt(s[1..], j - 1, p) {
          if j + |p| <= |s| { SliceOfTail(s, j, |p|); }
        }
      }
      if tail.None? then None else Some(tail.value + 1)
  }

  function TrimStart(s: string): string {
    if s == [] || !IsJsWhitespace(s[0]) then s else TrimStart(s[1..])
  }

  function TrimEnd(s: string): string {
    if s == [] || !IsJsWhitespace(s[|s| - 1]) then s else TrimEnd(s[..|s| - 1])
  }

  /** `TrimStart` drops exactly the leading whitespace: the result is a suffix that does not
      start with whitespace, and everything before it is whitespace. */
  lemma {:induction false} TrimStartSpec(s: string)
    ensures |TrimStart(s)| <= |s| && TrimStart(s) == s[|s| - |TrimStart(s)|..]
    ensures TrimStart(s) == [] || !IsJsWhitespace(TrimStart(s)[0])
    ensures forall i | 0 <= i < |s| - |TrimStart(s)| :: IsJsWhitespace(s[i])
  {
    if s != [] && IsJsWhitespace(s[0]) {
      var t := s[1..];
      TrimStartSpec(t);
      var n := |TrimStart(t)|;
      assert TrimStart(s) == TrimStart(t);
      assert s[|s| - n..] == t[|t| - n..];
      forall i | 0 <= i < |s| - n
        ensures IsJsWhitespace(s[i])
      {
        if i > 0 { assert s[i] == t[i - 1]; }
      }
    }
  }

  /** `TrimEnd` drops exactly the trailing whitespace. */
  lemma {:induction false} TrimEndSpec(s: string)
    ensures |TrimEnd(s)| <= |s| && TrimEnd(s) == s[..|TrimEnd(s)|]
    ensures TrimEnd(s) == [] || !IsJsWhitespace(TrimEnd(s)[|TrimEnd(s)| - 1])
    ensures forall i | |TrimEnd(s)| <= i < |s| :: IsJsWhitespace(s[i])
  {
    if s != [] && IsJsWhitespace(s[|s| - 1]) {
      TrimEndSpec(s[..|s| - 1]);
    }
  }

  predicate AllSatisfy(s: string, p: char -> bool) {
    forall i | 0 <= i < |s| :: p(s[i])
  }

  /** Length of the run of characters satisfying `p` at the end of `s`. */
  function TrailingRun(s: string, p: char -> bool): (n: nat)
    ensures n <= |s| && AllSatisfy(s[|s| - n..], p)
    ensures n == |s| || !p(s[|s| - n - 1])
  {
    if s == [] || !p(s[|s| - 1]) then 0
    else
      var m := TrailingRun(s[..|s| - 1], p);
      assert s[|s| - (m + 1)..] == s[..|s| - 1][|s| - 1 - m..] + [s[|s| - 1]];
      m + 1
  }

  /** A suffix of such characters lies within the trailing run. */
  lemma {:induction false} TrailingRunCover(s: string, p: char -> bool, j: nat)
    requires j <= |s| && AllSatisfy(s[j..], p)
    ensures |s| - j <= TrailingRun(s, p)
  {
    if j < |s| {
      assert s[j..][|s| - 1 - j] == s[|s| - 1];
      assert s[..|s| - 1][j..] == s[j..|s| - 1];
      assert forall i | 0 <= i < |s| - 1 - j :: s[j..|s| - 1][i] == s[j..][i];
      TrailingRunCover(s[..|s| - 1], p, j);
    }
  }

  /** Where a regular expression `M[p]+$` matches: the index of a `mark` followed by one or
      more characters satisfying `p` up to the end of the string. */
  function MarkBeforeRun(s: string, mark: char, p: char -> bool): (r: Option<nat>)
    requires !p(mark)
    ensures r.Some? ==> r.value < |s| - 1 && s[r.value] == mark && AllSatisfy(s[r.value + 1..], p)
    ensures r.None? ==> forall k | 0 <= k < |s| - 1 :: !(s[k] == mark && AllSatisfy(s[k + 1..], p))
  {
    var n := TrailingRun(s, p);
    if n >= 1 && n < |s| && s[|s| - n - 1] == mark then Some(|s| - n - 1)
    else
      forall k | 0 <= k < |s| - 1 && s[k] == mark && AllSatisfy(s[k + 1..], p)
        ensures false
      {
        TrailingRunCover(s, p, k + 1);
      }
      None
  }

  /** There is at most one such mark, so the match is exactly at any index that qualifies. */
  lemma MarkBeforeRunIff(s: string, mark: char, p: char -> bool, k: nat)
    requires !p(mark)
    ensures MarkBeforeRun(s, mark, p) == Some(k)
        <==> k < |s| - 1 && s[k] == mark && AllSatisfy(s[k + 1..], p)
  {
    if k < |s| - 1 && s[k] == mark && AllSatisfy(s[k + 1..], p) {
      TrailingRunCover(s, p, k + 1);
    }
  }

  /** `String.prototype.trim`. */
  function Trim(s: string): string {
    TrimEnd(TrimStart(s))
  }

  /** A string without surrounding whitespace is its own trim. */
  lemma TrimNoop(s: string)
    requires s == [] || (!IsJsWhitespace(s[0]) && !IsJsWhitespace(s[|s| - 1]))
    ensures Trim(s) == s
  {
  }

  /** A string made only of whitespace trims to the empty string, and only such a string does. */
  lemma TrimEmptyIff(s: string)
    ensures Trim(s) == [] <==> forall i | 0 <= i < |s| :: IsJsWhitespace(s[i])
  {
    TrimStartSpec(s);
    TrimEndSpec(TrimStart(s));
    if forall i | 0 <= i < |s| :: IsJsWhitespace(s[i]) {
      assert TrimStart(s) == [];
    }
  }

  /** `s.split(c)` for a string separator of one character, generalised to a set of
      separator characters (`s.split(/a|b/)` when every alternative is one character). */
  function Split(s: string, seps: set<char>): (r: seq<string>)
    ensures |r| >= 1
  {
    if s == [] then [""]
    else if s[0] in seps then [""] + Split(s[1..], seps)
    else var rest := Split(s[1..], seps); [[s[0]] + rest[0]] + rest[1..]
  }

  /** `parts.join(sep)`. */
  function Join(parts: seq<string>, sep: string): string {
    if |parts| == 0 then ""
    else if |parts| == 1 then parts[0]
    else parts[0] + sep + Join(parts[1..], sep)
  }

  predicate NoneIn(s: string, chars: set<char>) {
    forall i | 0 <= i < |s| :: s[i] !in chars
  }

  lemma JoinCons(a: string, rest: seq<string>, sep: string)
    ensures Join([a] + rest, sep) == if rest == [] then a else a + sep + Join(rest, sep)
  {
    assert ([a] + rest)[1..] == rest;
  }

  /** Splitting at a character and joining with it gives the original string back. */
  lemma {:induction false} JoinSplit(s: string, c: char)
    ensures Join(Split(s, {c}), [c]) == s
  {
    if s == [] {
    } else if s[0] == c {
      var rest := Split(s[1..], {c});
      JoinSplit(s[1..], c);
      JoinCons("", rest, [c]);
    } else {
      var rest := Split(s[1..], {c});
      JoinSplit(s[1..], c);
      JoinCons([s[0]] + rest[0], rest[1..], [c]);
      JoinCons(rest[0], rest[1..], [c]);
      assert rest == [rest[0]] + rest[1..];
    }
  }

  lemma {:induction false} SplitNoSep(a: string, seps: set<char>)
    requires NoneIn(a, seps)
    ensures Split(a, seps) == [a]
  {
    if a != [] {
      SplitNoSep(a[1..], seps);
      assert [a[0]] + a[1..] == a;
    }
  }

  lemma {:induction false} SplitAtSep(a: string, c: char, rest: string, seps: set<char>)
    requires NoneIn(a, seps) && c in seps
    ensures Split(a + [c] + rest, seps) == [a] + Split(rest, seps)
  {
    if a == [] {
      assert ([c] + rest)[1..] == rest;
    } else {
      assert (a + [c] + rest)[1..] == a[1..] + [c] + rest;
      SplitAtSep(a[1..], c, rest, seps);
      assert [a[0]] + a[1..] == a;
    }
  }

  /** No piece of a split holds a separator. */
  lemma {:induction false} SplitPiecesHaveNoSep(s: string, seps: set<char>)
    ensures forall i | 0 <= i < |Split(s, seps)| :: NoneIn(Split(s, seps)[i], seps)
  {
    if s != [] {
      SplitPiecesHaveNoSep(s[1..], seps);
      var rest := Split(s[1..], seps);
      if s[0] !in seps {
        var first := [s[0]] + rest[0];
        assert forall k | 1 <= k < |first| :: first[k] == rest[0][k - 1];
      }
    }
  }

  /** Joining pieces that hold no separator and splitting again gives the pieces back. */
  lemma {:induction false} SplitJoin(parts: seq<string>, c: char, seps: set<char>)
    requires |parts| >= 1 && c in seps
    requires forall i | 0 <= i < |parts| :: NoneIn(parts[i], seps)
    ensures Split(Join(parts, [c]), seps) == parts
  {
    if |parts| == 1 {
      SplitNoSep(parts[0], seps);
    } else {
      SplitJoin(parts[1..], c, seps);
      SplitAtSep(parts[0], c, Join(parts[1..], [c]), seps);
      assert [parts[0]] + parts[1..] == parts;
    }
  }

  function DigitChar(d: nat): char
    requires d < 10
  {
    ['0', '1', '2', '3', '4', '5', '6', '7', '8', '9'][d]
  }

  function DigitValue(c: char): nat
    requires IsDigit(c)
  {
    (c as int - '0' as int) as nat
  }

  /** Decimal text of a natural number, as `String(n)` writes it. */
  function NatToString(n: nat): (r: string)
    ensures |r| >= 1 && AllDigits(r)
  {
    if n < 10 then [DigitChar(n)] else NatToString(n / 10) + [DigitChar(n % 10)]
  }

  /** `String(n)` for an integer. */
  function IntToString(n: int): string {
    if n < 0 then "-" + NatToString(-n) else NatToString(n)
  }

  /** The value of a string of decimal digits. */
  function DigitsValue(s: string): nat
    requires AllDigits(s)
  {
    if s == [] then 0 else DigitsValue(s[..|s| - 1]) * 10 + DigitValue(s[|s| - 1])
  }

  lemma {:induction false} DigitsOfNat(n: nat)
    ensures DigitsValue(NatToString(n)) == n
  {
    if n >= 10 {
      var s := NatToString(n);
      assert s[..|s| - 1] == NatToString(n / 10);
      DigitsOfNat(n / 10);
    }
  }

  lemma NatToStringInjective(m: nat, n: nat)
    requires NatToString(m) == NatToString(n)
    ensures m == n
  {
    DigitsOfNat(m);
    DigitsOfNat(n);
  }

  /** `Number(s)` for the decimal forms: surrounding whitespace is ignored, the empty string
      is 0, an optional sign is followed by at least one digit; everything else is NaN (None). */
  function ParseDecimal(s: string): Option<int> {
    var t := Trim(s);
    if t == [] then Some(0)
    else if (t[0] == '-' || t[0] == '+') && |t| > 1 && AllDigits(t[1..]) then
      var v: int := DigitsValue(t[1..]); Some(if t[0] == '-' then -v else v)
    else if AllDigits(t) then Some(DigitsValue(t))
    else None
  }

  /** `Number(String(n)) === n`. */
  lemma ParseIntToString(n: int)
    ensures ParseDecimal(IntToString(n)) == Some(n)
  {
    if n < 0 {
      ParseNegative(-n);
    } else {
      ParseNatToString(n);
    }
  }

  lemma ParseNatToString(n: nat)
    ensures ParseDecimal(NatToString(n)) == Some(n)
  {
    var d := NatToString(n);
    assert IsDigit(d[0]) && IsDigit(d[|d| - 1]);
    TrimNoop(d);
    DigitsOfNat(n);
  }

  lemma ParseNegative(m: nat)
    requires m > 0
    ensures ParseDecimal("-" + NatToString(m)) == Some(-(m as int))
  {
    var d := NatToString(m);
    var s := "-" + d;
    assert s[1..] == d && |s| > 1;
    assert !IsJsWhitespace(s[|s| - 1]) by { assert s[|s| - 1] == d[|d| - 1]; }
    TrimNoop(s);
    DigitsOfNat(m);
  }

  function LeadingDigits(s: string): (n: nat)
    ensures n <= |s| && AllDigits(s[..n]) && (n == |s| || !IsDigit(s[n]))
  {
    if s == [] || !IsDigit(s[0]) then 0
    else
      var k := LeadingDigits(s[1..]);
      assert s[..k + 1] == [s[0]] + s[1..][..k];
      k + 1
  }

  /** `Number.parseInt(s, 10)`: leading whitespace and an optional sign, then the longest run
      of decimal digits; NaN (None) when there is no digit. */
  function ParseIntPrefix(s: string): (r: Option<int>)
    ensures r.None? <==> (var t := TrimStart(s);
      var body := if t != [] && (t[0] == '-' || t[0] == '+') then t[1..] else t;
      body == [] || !IsDigit(body[0]))
  {
    var t := TrimStart(s);
    var negative := t != [] && t[0] == '-';
    var body := if t != [] && (t[0] == '-' || t[0] == '+') then t[1..] else t;
    var k := LeadingDigits(body);
    if k == 0 then None
    else var v: int := DigitsValue(body[..k]); Some(if negative then -v else v)
  }

  /** `s.replace(pattern, replacement)` with a string pattern: only the first occurrence. */
  function ReplaceFirst(s: string, pattern: string, replacement: string): string {
    match IndexOf(s, pattern)
    case None => s
    case Some(i) => s[..i] + replacement + s[i + |pattern|..]
  }

  function LowerAscii(c: char): char {
    if 'A' <= c <= 'Z' then (c as int + 32) as char else c
  }

  function ToLowerAscii(s: string): (r: string)
    ensures |r| == |s| && forall i | 0 <= i < |s| :: r[i] == LowerAscii(s[i])
  {
    seq(|s|, i requires 0 <= i < |s| => LowerAscii(s[i]))
  }

  /** Number of bytes of the UTF-8 encoding of one Unicode scalar value. */
  function Utf8Width(c: char): nat {
    if c as int < 0x80 then 1 else if c as int < 0x800 then 2 else if c as int < 0x10000 then 3 else 4
  }

  /** The UTF-8 encoding of one scalar value (RFC 3629, section 3). */
  function Utf8Char(c: char): (r: seq<byte>)
    ensures |r| == Utf8Width(c)
  {
    var v := c as int;
    if v < 0x80 then [v as byte]
    else if v < 0x800 then [(0xC0 + v / 0x40) as byte, (0x80 + v % 0x40) as byte]
    else if v < 0x10000 then
      [(0xE0 + v / 0x1000) as byte, (0x80 + (v / 0x40) % 0x40) as byte, (0x80 + v % 0x40) as byte]
    else
      [(0xF0 + v / 0x40000) as byte, (0x80 + (v / 0x1000) % 0x40) as byte,
       (0x80 + (v / 0x40) % 0x40) as byte, (0x80 + v % 0x40) as byte]
  }

  function Utf8Encode(s: string): seq<byte> {
    if s == [] then [] else Utf8Char(s[0]) + Utf8Encode(s[1..])
  }

  /** `Buffer.byteLength(s, 'utf-8')`, summed width by width. */
  function Utf8Length(s: string): nat {
    if s == [] then 0 else Utf8Width(s[0]) + Utf8Length(s[1..])
  }

  /** The byte length counts exactly the bytes of the encoding. */
  lemma {:induction false} Utf8LengthIsEncodedSize(s: string)
    ensures |Utf8Encode(s)| == Utf8Length(s)
    ensures Utf8Length(s) >= |s|
  {
    if s != [] {
      Utf8LengthIsEncodedSize(s[1..]);
    }
  }
}
