/** String helpers the handlers rely on: JavaScript's `trim` and `parseInt`,
    SQL's `LOWER`, substring search and the lexicographic string order used
    by `ORDER BY` on a text column. */
module Text {
  import opened Wrappers

  /** The characters `String.prototype.trim` and `parseInt` skip: the ASCII
      whitespace and line terminators, no-break space and the byte-order mark. */
  predicate IsWhitespace(c: char) {
    c == ' ' || c == '\t' || c == '\n' || c == '\r' || c == '\U{B}' || c == '\U{C}'
    || c == '\U{A0}' || c == '\U{FEFF}'
  }

  /** The first position at or after `k` that is not whitespace, or `|s|`. */
  function SkipWhitespace(s: string, k: nat): (r: nat)
    requires k <= |s|
    ensures k <= r <= |s|
    ensures forall i :: k <= i < r ==> IsWhitespace(s[i])
    ensures r == |s| || !IsWhitespace(s[r])
    decreases |s| - k
  {
    if k < |s| && IsWhitespace(s[k]) then SkipWhitespace(s, k + 1) else k
  }

  /** The last position at or before `k` not preceded by whitespace, or 0. */
  function SkipWhitespaceBack(s: string, k: nat): (r: nat)
    requires k <= |s|
    ensures r <= k
    ensures forall i :: r <= i < k ==> IsWhitespace(s[i])
    ensures r == 0 || !IsWhitespace(s[r - 1])
  {
    if k > 0 && IsWhitespace(s[k - 1]) then SkipWhitespaceBack(s, k - 1) else k
  }

  /** `s` with its leading whitespace removed. */
  function TrimStart(s: string): (r: string)
    ensures |r| <= |s| && r == s[|s| - |r|..]
    ensures r == [] || !IsWhitespace(r[0])
    ensures forall i :: 0 <= i < |s| - |r| ==> IsWhitespace(s[i])
  {
    s[SkipWhitespace(s, 0)..]
  }

  /** `s` with its trailing whitespace removed. */
  function TrimEnd(s: string): (r: string)
    ensures |r| <= |s| && r == s[..|r|]
    ensures r == [] || !IsWhitespace(r[|r| - 1])
    ensures forall i :: |r| <= i < |s| ==> IsWhitespace(s[i])
  {
    s[..SkipWhitespaceBack(s, |s|)]
  }

  /** JavaScript's `s.trim()`. */
  function Trim(s: string): string {
    TrimEnd(TrimStart(s))
  }

  predicate AllWhitespace(s: string) {
    forall i :: 0 <= i < |s| ==> IsWhitespace(s[i])
  }

  lemma TrimStartCut(s: string)
    ensures AllWhitespace(s[..|s| - |TrimStart(s)|])
  {
    var n := |s| - |TrimStart(s)|;
    forall k | 0 <= k < n ensures IsWhitespace(s[..n][k]) {
      assert s[..n][k] == s[k];
    }
  }

  lemma TrimEndCut(t: string)
    ensures AllWhitespace(t[|TrimEnd(t)|..])
  {
    var e := |TrimEnd(t)|;
    forall k | 0 <= k < |t| - e ensures IsWhitespace(t[e..][k]) {
      assert t[e..][k] == t[e + k];
    }
  }

  /** `Trim` cuts a contiguous piece out of `s`, and everything cut is
      whitespace. */
  lemma TrimCutsWhitespace(s: string)
    ensures exists i, j :: 0 <= i <= j <= |s| && Trim(s) == s[i..j]
                           && AllWhitespace(s[..i]) && AllWhitespace(s[j..])
  {
    var t := TrimStart(s);
    var i := |s| - |t|;
    var j := i + |TrimEnd(t)|;
    TrimStartCut(s);
    TrimEndCut(t);
    SliceOfSuffix(s, i, |TrimEnd(t)|);
    assert Trim(s) == s[i..j] && s[j..] == t[|TrimEnd(t)|..];
  }

  lemma SliceOfSuffix(s: string, i: nat, e: nat)
    requires i + e <= |s|
    ensures s[i..][..e] == s[i..i + e]
    ensures s[i..][e..] == s[i + e..]
  {
  }

  /** The trimmed text neither starts nor ends with whitespace. */
  lemma TrimEnds(s: string)
    ensures Trim(s) == [] || (!IsWhitespace(Trim(s)[0]) && !IsWhitespace(Trim(s)[|Trim(s)| - 1]))
  {
    var t := TrimStart(s);
    if Trim(s) != [] {
      assert Trim(s)[0] == t[0];
    }
  }

  /** The trimmed text is empty exactly when `s` is all whitespace. */
  lemma TrimEmpty(s: string)
    ensures Trim(s) == [] <==> AllWhitespace(s)
  {
    var t := TrimStart(s);
    if Trim(s) == [] {
      assert |t| == 0;
    } else {
      assert !IsWhitespace(t[0]) && t[0] == s[|s| - |t|];
    }
  }

  /** Trimming twice is trimming once. */
  lemma TrimIdempotent(s: string)
    ensures Trim(Trim(s)) == Trim(s)
  {
    TrimEnds(s);
    var t := Trim(s);
    if t != [] {
      TrimStartNoLeading(t);
      TrimEndNoTrailing(t);
    }
  }

  /** Text that does not end with whitespace is left alone by `TrimEnd`. */
  lemma TrimEndNoTrailing(t: string)
    requires t != [] && !IsWhitespace(t[|t| - 1])
    ensures TrimEnd(t) == t
  {
    assert SkipWhitespaceBack(t, |t|) == |t|;
  }

  /** SQL `LOWER` on one character, restricted to the ASCII letters. */
  function LowerChar(c: char): char {
    if 'A' <= c <= 'Z' then (c as int + 32) as char else c
  }

  /** SQL `LOWER` on a string, character by character. */
  function Lower(s: string): (r: string)
    ensures |r| == |s|
    ensures forall i :: 0 <= i < |s| ==> r[i] == LowerChar(s[i])
  {
    seq(|s|, i requires 0 <= i < |s| => LowerChar(s[i]))
  }

  /** `needle` occurs in `hay` starting at position `i`. */
  predicate OccursAt(hay: string, needle: string, i: int) {
    0 <= i <= |hay| - |needle| && hay[i..i + |needle|] == needle
  }

  /** Substring search by sliding a window along `hay`, from position `k` on. */
  function ContainsFrom(hay: string, needle: string, k: nat): (r: bool)
    ensures r <==> exists i :: k <= i && OccursAt(hay, needle, i)
    decreases |hay| - k
  {
    if k + |needle| > |hay| then false
    else if OccursAt(hay, needle, k) then true
    else ContainsFrom(hay, needle, k + 1)
  }

  /** `needle` is a substring of `hay`. */
  function Contains(hay: string, needle: string): (r: bool)
    ensures r <==> exists i :: OccursAt(hay, needle, i)
  {
    ContainsFrom(hay, needle, 0)
  }

  /** Case-insensitive (ASCII) substring test. */
  predicate ContainsIgnoringCase(hay: string, needle: string) {
    Contains(Lower(hay), Lower(needle))
  }

  // ---------------------------------------------------------------------------
  // Lexicographic order on strings (code-point order, as `ORDER BY` on a text
  // column compares byte-wise under a binary collation).

  predicate StrLe(a: string, b: string)
    decreases |a|
  {
    if a == [] then true
    else if b == [] then false
    else if a[0] != b[0] then a[0] < b[0]
    else StrLe(a[1..], b[1..])
  }

  lemma {:induction false} StrLeTotal(a: string, b: string)
    ensures StrLe(a, b) || StrLe(b, a)
    decreases |a|
  {
    if a != [] && b != [] && a[0] == b[0] {
      StrLeTotal(a[1..], b[1..]);
    }
  }

  lemma {:induction false} StrLeTransitive(a: string, b: string, c: string)
    requires StrLe(a, b) && StrLe(b, c)
    ensures StrLe(a, c)
    decreases |a|
  {
    if a != [] && b != [] && c != [] && a[0] == b[0] && b[0] == c[0] {
      StrLeTransitive(a[1..], b[1..], c[1..]);
    }
  }

  lemma {:induction false} StrLeAntisymmetric(a: string, b: string)
    requires StrLe(a, b) && StrLe(b, a)
    ensures a == b
    decreases |a|
  {
    if a != [] && b != [] {
      StrLeAntisymmetric(a[1..], b[1..]);
      assert a == [a[0]] + a[1..] && b == [b[0]] + b[1..];
    }
  }

  // ---------------------------------------------------------------------------
  // JavaScript's `parseInt(s)` with no radix argument.

  /** The value of `c` read as a digit of base 16 or less; 16 for a non-digit. */
  function DigitValue(c: char): nat {
    if '0' <= c <= '9' then c as int - '0' as int
    else if 'a' <= c <= 'f' then c as int - 'a' as int + 10
    else if 'A' <= c <= 'F' then c as int - 'A' as int + 10
    else 16
  }

  /** The end of the run of base-`radix` digits of `s` that starts at `k`. */
  function DigitRunEnd(s: string, k: nat, radix: nat): (r: nat)
    requires k <= |s|
    ensures k <= r <= |s|
    ensures forall i :: k <= i < r ==> DigitValue(s[i]) < radix
    ensures r == |s| || DigitValue(s[r]) >= radix
    decreases |s| - k
  {
    if k < |s| && DigitValue(s[k]) < radix then DigitRunEnd(s, k + 1, radix) else k
  }

  /** The number of leading characters of `s` that are digits in base `radix`. */
  function LeadingDigits(s: string, radix: nat): (n: nat)
    ensures n <= |s|
    ensures forall i :: 0 <= i < n ==> DigitValue(s[i]) < radix
    ensures n == |s| || DigitValue(s[n]) >= radix
  {
    DigitRunEnd(s, 0, radix)
  }

  /** `v` shifted one digit to the left: base 16 when `hex`, else base 10. */
  function Shift(v: nat, hex: bool): nat {
    if hex then 16 * v else 10 * v
  }

  /** The number written by the digit string `ds`, most significant first, in
      base 16 when `hex` and base 10 otherwise. */
  function DigitsValue(ds: string, hex: bool): nat {
    if ds == [] then 0
    else Shift(DigitsValue(ds[..|ds| - 1], hex), hex) + DigitValue(ds[|ds| - 1])
  }

  /** The unsigned part of `parseInt`: base 16 after a `0x`/`0X` prefix, base
      10 otherwise, then the longest run of digits; `None` when there is none. */
  function ParseUnsigned(u: string): Option<nat> {
    var hex := |u| >= 2 && u[0] == '0' && (u[1] == 'x' || u[1] == 'X');
    var radix := if hex then 16 else 10;
    var v := if hex then u[2..] else u;
    var n := LeadingDigits(v, radix);
    if n == 0 then None else Some(DigitsValue(v[..n], hex))
  }

  /** `parseInt(s)`: skip leading whitespace, read an optional sign, then the
      unsigned part; `None` stands for `NaN`. Anything after the digits is
      ignored. */
  function ParseInt(s: string): Option<int> {
    var t := TrimStart(s);
    if t != [] && t[0] == '-' then Signed(ParseUnsigned(t[1..]), true)
    else if t != [] && t[0] == '+' then Signed(ParseUnsigned(t[1..]), false)
    else Signed(ParseUnsigned(t), false)
  }

  /** An unsigned reading with its sign applied; `None` stays `None`. */
  function Signed(u: Option<nat>, negative: bool): Option<int> {
    match u
    case None => None
    case Some(v) => if negative then Some(0 - v) else Some(v as int)
  }

  /** Text that does not start with whitespace is left alone by `TrimStart`. */
  lemma TrimStartNoLeading(t: string)
    requires t != [] && !IsWhitespace(t[0])
    ensures TrimStart(t) == t
  {
    assert SkipWhitespace(t, 0) == 0;
  }

  /** The decimal text of `n`, as a template literal renders a number. */
  function DecimalText(n: nat): (r: string)
    ensures |r| >= 1
    ensures forall i :: 0 <= i < |r| ==> '0' <= r[i] <= '9'
  {
    var d := ['0' + (n % 10) as char];
    if n < 10 then d else DecimalText(n / 10) + d
  }

  /** Reading back a decimal rendering yields the number. */
  lemma {:induction false} DecimalTextValue(n: nat)
    ensures DigitsValue(DecimalText(n), false) == n
  {
    var r := DecimalText(n);
    if n >= 10 {
      DecimalTextValue(n / 10);
      assert r[..|r| - 1] == DecimalText(n / 10);
    }
  }

  /** The unsigned reader reads a whole decimal rendering. */
  lemma ParseUnsignedDecimal(n: nat)
    ensures ParseUnsigned(DecimalText(n)) == Some(n)
  {
    var r := DecimalText(n);
    DecimalTextValue(n);
    assert |r| >= 2 ==> r[1] != 'x' && r[1] != 'X';
    assert LeadingDigits(r, 10) == |r|;
    assert r[..|r|] == r;
  }

  /** Text starting with a digit is read unsigned. */
  lemma ParseIntPlain(r: string, v: nat)
    requires r != [] && '0' <= r[0] <= '9'
    requires ParseUnsigned(r) == Some(v)
    ensures ParseInt(r) == Some(v as int)
  {
    ParseIntUnsignedText(r);
  }

  /** Text that starts with neither whitespace nor a sign is read unsigned. */
  lemma ParseIntUnsignedText(t: string)
    requires t != [] && !IsWhitespace(t[0]) && t[0] != '-' && t[0] != '+'
    ensures ParseInt(t) == Signed(ParseUnsigned(t), false)
  {
    TrimStartNoLeading(t);
  }

  /** A minus sign before text that reads as `v` gives `-v`. */
  lemma ParseIntNegated(m: string, v: nat)
    requires m != [] && m[0] == '-'
    requires ParseUnsigned(m[1..]) == Some(v)
    ensures ParseInt(m) == Some(0 - v)
  {
    ParseIntMinusText(m);
  }

  /** Text that starts with a minus sign is read unsigned after it, negated. */
  lemma ParseIntMinusText(t: string)
    requires t != [] && t[0] == '-'
    ensures ParseInt(t) == Signed(ParseUnsigned(t[1..]), true)
  {
    TrimStartNoLeading(t);
  }

  /** `parseInt` inverts decimal rendering, with or without a leading minus sign. */
  lemma ParseIntDecimal(n: nat)
    ensures ParseInt(DecimalText(n)) == Some(n as int)
    ensures ParseInt("-" + DecimalText(n)) == Some(0 - n)
  {
    ParseUnsignedDecimal(n);
    ParseIntPlain(DecimalText(n), n);
    var m := "-" + DecimalText(n);
    assert m[1..] == DecimalText(n);
    ParseIntNegated(m, n);
  }

  predicate NoDecimalDigit(s: string) {
    forall i :: 0 <= i < |s| ==> !('0' <= s[i] <= '9')
  }

  /** The unsigned reader finds nothing in a text without decimal digits. */
  lemma ParseUnsignedNoDigits(u: string)
    requires NoDecimalDigit(u)
    ensures ParseUnsigned(u) == None
  {
    assert u == [] || DigitValue(u[0]) >= 10;
    assert LeadingDigits(u, 10) == 0;
  }

  lemma NoDigitsSuffix(s: string, k: nat)
    requires NoDecimalDigit(s) && k <= |s|
    ensures NoDecimalDigit(s[k..])
  {
    assert forall i :: 0 <= i < |s| - k ==> s[k..][i] == s[k + i];
  }

  /** A text without any decimal digit (empty, blank, a bare sign, a word)
      parses to `NaN`: even a hexadecimal number needs its leading `0`. */
  lemma ParseIntNoDigits(s: string)
    requires NoDecimalDigit(s)
    ensures ParseInt(s) == None
  {
    var t := TrimStart(s);
    NoDigitsSuffix(s, |s| - |t|);
    ParseUnsignedNoDigits(t);
    if t != [] {
      NoDigitsSuffix(t, 1);
      ParseUnsignedNoDigits(t[1..]);
    }
  }
}
