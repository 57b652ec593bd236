/** Character- and string-level helpers standing in for the Python built-ins
    the application leans on: `str(int)`, `int`-from-digits, `str.lower`,
    `str.strip`, `in` on strings, `str.endswith` and `", ".join`. */
module Text {

  // ---------------------------------------------------------------------
  // Decimal digits
  // ---------------------------------------------------------------------

  predicate IsDigit(c: char) {
    '0' <= c <= '9'
  }

  predicate AllDigits(s: string) {
    forall i :: 0 <= i < |s| ==> IsDigit(s[i])
  }

  function DigitChar(d: nat): (c: char)
    requires d < 10
    ensures IsDigit(c)
  {
    (('0' as int) + d) as char
  }

  function DigitValue(c: char): (d: nat)
    requires IsDigit(c)
    ensures d < 10
  {
    (c as int) - ('0' as int)
  }

  function Pow10(k: nat): (p: nat)
    ensures p >= 1
  {
    if k == 0 then 1 else 10 * Pow10(k - 1)
  }

  /** `str(n)` for a non-negative Python int: the shortest decimal numeral. */
  function NatToString(n: nat): (s: string)
    ensures |s| >= 1
    ensures AllDigits(s)
    ensures s[0] == '0' ==> n == 0
    decreases n
  {
    if n < 10 then [DigitChar(n)] else NatToString(n / 10) + [DigitChar(n % 10)]
  }

  /** `str(i)` for any Python int. */
  function IntToString(i: int): (s: string)
    ensures |s| >= 1
    ensures i >= 0 <==> s[0] != '-'
  {
    if i < 0 then "-" + NatToString(-i) else NatToString(i)
  }

  /** The value of a string of decimal digits read left to right, as
      `int(s)` does for such a string (0 for the empty string). */
  function DigitsValue(s: string): nat
    requires AllDigits(s)
  {
    if |s| == 0 then 0 else DigitsValue(s[..|s| - 1]) * 10 + DigitValue(s[|s| - 1])
  }

  /** Reading back the numeral `str(n)` gives `n`. */
  lemma {:induction false} DigitsValueOfNatToString(n: nat)
    ensures DigitsValue(NatToString(n)) == n
    decreases n
  {
    var s := NatToString(n);
    if n >= 10 {
      DigitsValueOfNatToString(n / 10);
      assert s[..|s| - 1] == NatToString(n / 10);
    }
  }

  /** `str(n)` has at most `k` digits exactly when `n < 10^k`. */
  lemma {:induction false} NatToStringLength(n: nat, k: nat)
    requires k >= 1
    ensures |NatToString(n)| <= k <==> n < Pow10(k)
    decreases n
  {
    if n >= 10 {
      if k == 1 {
        assert |NatToString(n / 10)| >= 1;
      } else {
        NatToStringLength(n / 10, k - 1);
        assert n / 10 < Pow10(k - 1) <==> n < 10 * Pow10(k - 1);
      }
    }
  }

  /** `n` copies of `c`. */
  function Repeat(c: char, n: nat): (r: string)
    ensures |r| == n
    ensures forall i :: 0 <= i < n ==> r[i] == c
  {
    if n == 0 then "" else [c] + Repeat(c, n - 1)
  }

  /** `s.zfill(width)`: zeros inserted on the left, after a leading sign,
      until the string is `width` long; a longer string is left alone. */
  function ZFill(s: string, width: nat): (r: string)
    ensures |r| == if |s| >= width then |s| else width
    ensures |s| >= width ==> r == s
    ensures |s| < width && !(|s| > 0 && s[0] in "+-") ==> r == Repeat('0', width - |s|) + s
  {
    if |s| >= width then s
    else if |s| > 0 && (s[0] == '+' || s[0] == '-') then [s[0]] + Repeat('0', width - |s|) + s[1..]
    else Repeat('0', width - |s|) + s
  }

  /** Reading zero-padded digits gives the value of the digits. */
  lemma {:induction false} DigitsValueOfZeros(n: nat, s: string)
    requires AllDigits(s)
    ensures AllDigits(Repeat('0', n) + s)
    ensures DigitsValue(Repeat('0', n) + s) == DigitsValue(s)
    decreases |s|
  {
    var z := Repeat('0', n);
    if |s| == 0 {
      assert z + s == z;
      ZerosValue(n);
    } else {
      DigitsValueOfZeros(n, s[..|s| - 1]);
      assert (z + s)[..|z + s| - 1] == z + s[..|s| - 1];
    }
  }

  lemma {:induction false} ZerosValue(n: nat)
    ensures AllDigits(Repeat('0', n))
    ensures DigitsValue(Repeat('0', n)) == 0
    decreases n
  {
    if n > 0 {
      ZerosValue(n - 1);
      var z := Repeat('0', n);
      assert z[..n - 1] == Repeat('0', n - 1);
    }
  }

  // ---------------------------------------------------------------------
  // Case and white space
  // ---------------------------------------------------------------------

  function LowerChar(c: char): (l: char)
    ensures 'A' <= c <= 'Z' ==> 'a' <= l <= 'z'
    ensures !('A' <= c <= 'Z') ==> l == c
  {
    if 'A' <= c <= 'Z' then (c as int + 32) as char else c
  }

  /** `str.lower` on the ASCII letters; every other character is kept. */
  function Lower(s: string): (r: string)
    ensures |r| == |s|
    ensures forall i :: 0 <= i < |s| ==> r[i] == LowerChar(s[i])
  {
    if |s| == 0 then [] else [LowerChar(s[0])] + Lower(s[1..])
  }

  /** The characters for which Python's `str.isspace` holds. */
  predicate IsSpace(c: char) {
    || '\U{9}' <= c <= '\U{D}'
    || '\U{1C}' <= c <= ' '
    || c == '\U{85}' || c == '\U{A0}' || c == '\U{1680}'
    || '\U{2000}' <= c <= '\U{200A}'
    || c == '\U{2028}' || c == '\U{2029}' || c == '\U{202F}' || c == '\U{205F}' || c == '\U{3000}'
  }

  function StripLeft(s: string): (r: string)
    ensures |r| <= |s| && r == s[|s| - |r|..]
    ensures |r| > 0 ==> !IsSpace(r[0])
    ensures forall i :: 0 <= i < |s| - |r| ==> IsSpace(s[i])
  {
    if |s| > 0 && IsSpace(s[0]) then StripLeft(s[1..]) else s
  }

  function StripRight(s: string): (r: string)
    ensures |r| <= |s| && r == s[..|r|]
    ensures |r| > 0 ==> !IsSpace(r[|r| - 1])
    ensures forall i :: |r| <= i < |s| ==> IsSpace(s[i])
  {
    if |s| > 0 && IsSpace(s[|s| - 1]) then StripRight(s[..|s| - 1]) else s
  }

  /** `str.strip()`: white space removed at both ends, the middle untouched. */
  function Strip(s: string): (r: string)
    ensures |r| > 0 ==> !IsSpace(r[0]) && !IsSpace(r[|r| - 1])
    ensures |r| <= |s|
  {
    StripRight(StripLeft(s))
  }

  // ---------------------------------------------------------------------
  // Searching and joining
  // ---------------------------------------------------------------------

  /** Python's `needle in hay` for strings. */
  predicate Contains(hay: string, needle: string)
    decreases |hay|
  {
    needle <= hay || (|hay| > 0 && Contains(hay[1..], needle))
  }

  /** A string occurring at the start of `b` occurs in `a + b`. */
  lemma {:induction false} ContainsAfter(a: string, b: string, needle: string)
    requires needle <= b
    ensures Contains(a + b, needle)
    decreases |a|
  {
    if |a| > 0 {
      assert (a + b)[1..] == a[1..] + b;
      ContainsAfter(a[1..], b, needle);
    }
  }

  predicate EndsWith(s: string, suffix: string) {
    |suffix| <= |s| && s[|s| - |suffix|..] == suffix
  }

  /** `sep.join(parts)`. */
  function Join(parts: seq<string>, sep: string): string
  {
    if |parts| == 0 then ""
    else if |parts| == 1 then parts[0]
    else parts[0] + sep + Join(parts[1..], sep)
  }

  /** Total length of the pieces of a sequence of strings. */
  function TotalLength(parts: seq<string>): nat {
    if |parts| == 0 then 0 else |parts[0]| + TotalLength(parts[1..])
  }

  /** The joined string is the pieces plus one separator between each
      neighbouring pair. */
  lemma {:induction false} JoinLength(parts: seq<string>, sep: string)
    requires |parts| >= 1
    ensures |Join(parts, sep)| == TotalLength(parts) + (|parts| - 1) * |sep|
    decreases |parts|
  {
    if |parts| > 1 {
      JoinLength(parts[1..], sep);
    }
  }

  /** Joining two non-empty lists is joining each and gluing the results
      with one separator. */
  lemma {:induction false} JoinAppend(a: seq<string>, b: seq<string>, sep: string)
    requires |a| >= 1 && |b| >= 1
    ensures Join(a + b, sep) == Join(a, sep) + sep + Join(b, sep)
    decreases |a|
  {
    if |a| == 1 {
      assert (a + b)[1..] == b;
    } else {
      assert (a + b)[1..] == a[1..] + b;
      JoinAppend(a[1..], b, sep);
    }
  }

  /** A joined list of strings starts with its first piece and ends with its
      last one. */
  lemma {:induction false} JoinEnds(parts: seq<string>, sep: string)
    requires |parts| >= 1
    ensures parts[0] <= Join(parts, sep)
    ensures EndsWith(Join(parts, sep), parts[|parts| - 1])
    decreases |parts|
  {
    if |parts| > 1 {
      JoinEnds(parts[1..], sep);
      assert parts[1..][|parts[1..]| - 1] == parts[|parts| - 1];
      EndsAfter(parts[0] + sep, Join(parts[1..], sep), parts[|parts| - 1]);
      assert (parts[0] + sep + Join(parts[1..], sep))[..|parts[0]|] == parts[0];
    }
  }

  /** A suffix of `s` is a suffix of anything ending in `s`. */
  lemma EndsAfter(a: string, s: string, suffix: string)
    requires EndsWith(s, suffix)
    ensures EndsWith(a + s, suffix)
  {
    assert (a + s)[|a + s| - |suffix|..] == s[|s| - |suffix|..];
  }

  /** Python's `s.split(sep)` for a non-empty separator: the pieces between
      the non-overlapping occurrences of `sep`, found from the left. */
  function Split(s: string, sep: string): (parts: seq<string>)
    requires |sep| >= 1
    ensures |parts| >= 1
    decreases |s|
  {
    if |s| < |sep| then [s]
    else if s[..|sep|] == sep then [""] + Split(s[|sep|..], sep)
    else
      var rest := Split(s[1..], sep);
      [[s[0]] + rest[0]] + rest[1..]
  }

  /** A string without the separator's first character is a single piece. */
  lemma {:induction false} SplitOfFree(p: string, sep: string)
    requires |sep| >= 1 && sep[0] !in p
    ensures Split(p, sep) == [p]
    decreases |p|
  {
    if |p| >= |sep| {
      assert p[..|sep|][0] != sep[0];
      SplitOfFree(p[1..], sep);
      assert [p[0]] + p[1..] == p;
    }
  }

  /** Such a string followed by the separator splits off as the first piece. */
  lemma {:induction false} SplitAfterFree(p: string, sep: string, t: string)
    requires |sep| >= 1 && sep[0] !in p
    ensures Split(p + sep + t, sep) == [p] + Split(t, sep)
    decreases |p|
  {
    var s := p + sep + t;
    if |p| == 0 {
      assert s == sep + t;
      assert s[..|sep|] == sep && s[|sep|..] == t;
    } else {
      assert s[..|sep|][0] == p[0];
      assert s[1..] == p[1..] + sep + t;
      SplitAfterFree(p[1..], sep, t);
      assert [p[0]] + p[1..] == p;
    }
  }

  /** Splitting undoes joining when no piece holds the separator's first
      character. */
  lemma {:induction false} SplitJoin(parts: seq<string>, sep: string)
    requires |sep| >= 1 && |parts| >= 1
    requires forall i :: 0 <= i < |parts| ==> sep[0] !in parts[i]
    ensures Split(Join(parts, sep), sep) == parts
    decreases |parts|
  {
    if |parts| == 1 {
      SplitOfFree(parts[0], sep);
    } else {
      SplitJoin(parts[1..], sep);
      SplitAfterFree(parts[0], sep, Join(parts[1..], sep));
    }
  }

  function UpperChar(c: char): (u: char)
    ensures 'a' <= c <= 'z' ==> 'A' <= u <= 'Z' && LowerChar(u) == c
    ensures !('a' <= c <= 'z') ==> u == c
  {
    if 'a' <= c <= 'z' then (c as int - 32) as char else c
  }

  /** `str.capitalize` on a lower-case ASCII word: its first letter raised. */
  function Capitalize(s: string): (r: string)
    ensures |r| == |s|
    ensures |s| > 0 ==> r[1..] == s[1..] && r[0] == UpperChar(s[0])
  {
    if |s| == 0 then "" else [UpperChar(s[0])] + s[1..]
  }

  /** Lower-casing twice is lower-casing once. */
  lemma LowerIdempotent(s: string)
    ensures Lower(Lower(s)) == Lower(s)
  {
    assert forall i :: 0 <= i < |s| ==> LowerChar(LowerChar(s[i])) == LowerChar(s[i]);
  }
}
