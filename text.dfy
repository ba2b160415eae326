/** The JavaScript string operations the front end relies on: `toLowerCase`,
    `toUpperCase`, `trim`, `includes`, `String(n)`, `padStart` and the order
    that `localeCompare` stands for. A string is a sequence of Unicode scalar
    values (`char`), so a character outside the Basic Multilingual Plane is
    one element here where JavaScript counts two UTF-16 code units. */
module Text {

  // ---------------------------------------------------------------- case

  /** Lower-case mapping of one character (ASCII letters only). */
  function LowerChar(c: char): char {
    if 'A' <= c <= 'Z' then (c as int + 32) as char else c
  }

  /** Upper-case mapping of one character (ASCII letters only). */
  function UpperChar(c: char): char {
    if 'a' <= c <= 'z' then (c as int - 32) as char else c
  }

  /** `s.toLowerCase()` */
  function Lower(s: string): (r: string)
    ensures |r| == |s|
    ensures forall i :: 0 <= i < |r| ==> !('A' <= r[i] <= 'Z')
    ensures forall i :: 0 <= i < |s| && !('A' <= s[i] <= 'Z') ==> r[i] == s[i]
    ensures forall i :: 0 <= i < |s| && 'A' <= s[i] <= 'Z' ==> r[i] == (s[i] as int + 32) as char
  {
    seq(|s|, i requires 0 <= i < |s| => LowerChar(s[i]))
  }

  /** `s.toUpperCase()` */
  function Upper(s: string): (r: string)
    ensures |r| == |s|
    ensures forall i :: 0 <= i < |r| ==> !('a' <= r[i] <= 'z')
    ensures forall i :: 0 <= i < |s| && !('a' <= s[i] <= 'z') ==> r[i] == s[i]
    ensures forall i :: 0 <= i < |s| && 'a' <= s[i] <= 'z' ==> r[i] == (s[i] as int - 32) as char
  {
    seq(|s|, i requires 0 <= i < |s| => UpperChar(s[i]))
  }

  /** Lower-casing twice is lower-casing once. */
  lemma LowerIdempotent(s: string)
    ensures Lower(Lower(s)) == Lower(s)
  {
    var l := Lower(s);
    assert forall i :: 0 <= i < |s| ==> LowerChar(l[i]) == l[i];
  }

  // ---------------------------------------------------------------- trim

  /** The characters `String.prototype.trim` removes: the ECMAScript
      WhiteSpace and LineTerminator sets. */
  predicate IsWhitespace(c: char) {
    var u := c as int;
    u == 0x09 || u == 0x0A || u == 0x0B || u == 0x0C || u == 0x0D || u == 0x20 ||
    u == 0xA0 || u == 0x1680 || 0x2000 <= u <= 0x200A || u == 0x2028 || u == 0x2029 ||
    u == 0x202F || u == 0x205F || u == 0x3000 || u == 0xFEFF
  }

  /** Every character of `s` is whitespace. */
  predicate AllWhitespace(s: string) {
    forall i :: 0 <= i < |s| ==> IsWhitespace(s[i])
  }

  /** Drops the leading whitespace. */
  function TrimStart(s: string): (r: string)
    ensures |r| <= |s| && r == s[|s| - |r|..]
    ensures AllWhitespace(s[..|s| - |r|])
    ensures r == [] || !IsWhitespace(r[0])
  {
    if s != [] && IsWhitespace(s[0]) then
      var r := TrimStart(s[1..]);
      assert s[..|s| - |r|] == [s[0]] + s[1..][..|s| - 1 - |r|];
      r
    else s
  }

  /** Drops the trailing whitespace. */
  function TrimEnd(s: string): (r: string)
    ensures |r| <= |s| && r == s[..|r|]
    ensures AllWhitespace(s[|r|..])
    ensures r == [] || !IsWhitespace(r[|r| - 1])
  {
    if s != [] && IsWhitespace(s[|s| - 1]) then
      var r := TrimEnd(s[..|s| - 1]);
      assert s[|r|..] == s[..|s| - 1][|r|..] + [s[|s| - 1]];
      r
    else s
  }

  /** `r` is the slice of `s` from `k` on, with only whitespace before and after it. */
  predicate TrimmedAt(s: string, r: string, k: int) {
    && 0 <= k <= |s| - |r|
    && r == s[k..k + |r|]
    && AllWhitespace(s[..k])
    && AllWhitespace(s[k + |r|..])
  }

  /** `s.trim()`: the slice of `s` left once the whitespace at both ends is
      gone. It is empty exactly when `s` is all whitespace; otherwise it starts
      and ends with a character that is not whitespace. */
  function Trim(s: string): (r: string)
    ensures |r| <= |s|
    ensures exists k :: TrimmedAt(s, r, k)
    ensures r == [] <==> AllWhitespace(s)
    ensures r != [] ==> !IsWhitespace(r[0]) && !IsWhitespace(r[|r| - 1])
  {
    var t := TrimStart(s);
    var r := TrimEnd(t);
    TrimSlice(s, t, r);
    TrimEnds(s, t, r);
    r
  }

  /** Dropping whitespace from the front of `s` (giving `t`) and then from the
      back of `t` (giving `r`) leaves a slice with only whitespace around it. */
  lemma TrimSlice(s: string, t: string, r: string)
    requires |t| <= |s| && t == s[|s| - |t|..] && AllWhitespace(s[..|s| - |t|])
    requires |r| <= |t| && r == t[..|r|] && AllWhitespace(t[|r|..])
    ensures TrimmedAt(s, r, |s| - |t|)
    ensures exists k :: TrimmedAt(s, r, k)
  {
    var k := |s| - |t|;
    assert s[k..][..|r|] == s[k..k + |r|];
    assert s[k + |r|..] == t[|r|..];
    assert TrimmedAt(s, r, k);
  }

  /** Trimming both ends leaves nothing exactly for an all-whitespace string, and
      otherwise a non-whitespace character at each end. */
  lemma TrimEnds(s: string, t: string, r: string)
    requires |t| <= |s| && t == s[|s| - |t|..] && AllWhitespace(s[..|s| - |t|])
    requires t == [] || !IsWhitespace(t[0])
    requires |r| <= |t| && r == t[..|r|] && AllWhitespace(t[|r|..])
    requires r == [] || !IsWhitespace(r[|r| - 1])
    ensures r == [] <==> AllWhitespace(s)
    ensures r != [] ==> !IsWhitespace(r[0]) && !IsWhitespace(r[|r| - 1])
  {
    if r == [] {
      assert t[|r|..] == t;
      assert s[..|s| - |t|] == s;
    } else {
      assert r[0] == t[0] && t[0] == s[|s| - |t|];
    }
  }

  /** Lower-casing does not change what `trim` removes. */
  lemma {:induction false} TrimLower(s: string)
    ensures Trim(Lower(s)) == Lower(Trim(s))
  {
    TrimStartLower(s);
    TrimEndLower(TrimStart(s));
  }

  lemma {:induction false} TrimStartLower(s: string)
    ensures TrimStart(Lower(s)) == Lower(TrimStart(s))
  {
    if s != [] {
      var l := Lower(s);
      assert l[0] == LowerChar(s[0]) && l[1..] == Lower(s[1..]);
      LowerKeepsWhitespace(s[0]);
      if IsWhitespace(s[0]) {
        TrimStartLower(s[1..]);
      }
    }
  }

  lemma {:induction false} TrimEndLower(s: string)
    ensures TrimEnd(Lower(s)) == Lower(TrimEnd(s))
  {
    if s != [] {
      var l := Lower(s);
      assert l[|s| - 1] == LowerChar(s[|s| - 1]) && l[..|s| - 1] == Lower(s[..|s| - 1]);
      LowerKeepsWhitespace(s[|s| - 1]);
      if IsWhitespace(s[|s| - 1]) {
        TrimEndLower(s[..|s| - 1]);
      }
    }
  }

  /** Lower-casing maps whitespace to itself and nothing else to whitespace. */
  lemma LowerKeepsWhitespace(c: char)
    ensures IsWhitespace(LowerChar(c)) <==> IsWhitespace(c)
    ensures IsWhitespace(c) ==> LowerChar(c) == c
  {
  }

  // ---------------------------------------------------------------- includes

  /** `needle` occurs in `s` starting at index `i`. */
  predicate OccursAt(s: string, needle: string, i: int) {
    0 <= i && i + |needle| <= |s| && s[i..i + |needle|] == needle
  }

  /** `s.includes(needle)`: true exactly when `needle` occurs somewhere in `s`
      (so always for the empty needle). */
  function Contains(s: string, needle: string): (b: bool)
    ensures b <==> exists i :: OccursAt(s, needle, i)
    decreases |s|
  {
    if |needle| <= |s| && s[..|needle|] == needle then
      assert OccursAt(s, needle, 0);
      true
    else if s == [] then
      false
    else
      var b := Contains(s[1..], needle);
      assert forall i :: OccursAt(s[1..], needle, i) <==> OccursAt(s, needle, i + 1) by {
        forall i ensures OccursAt(s[1..], needle, i) <==> OccursAt(s, needle, i + 1) {
          if 0 <= i && i + |needle| <= |s| - 1 {
            assert s[1..][i..i + |needle|] == s[i + 1..i + 1 + |needle|];
          }
        }
      }
      assert (exists i :: OccursAt(s, needle, i)) ==> exists i :: OccursAt(s[1..], needle, i) by {
        if i :| OccursAt(s, needle, i) {
          assert i != 0;
          assert OccursAt(s[1..], needle, i - 1);
        }
      }
      b
  }

  // ---------------------------------------------------------------- order

  /** Lexicographic comparison by character (Unicode code point): -1, 0 or 1. */
  function Compare(a: string, b: string): (c: int)
    ensures -1 <= c <= 1
  {
    if a == [] && b == [] then 0
    else if a == [] then -1
    else if b == [] then 1
    else if a[0] < b[0] then -1
    else if a[0] > b[0] then 1
    else Compare(a[1..], b[1..])
  }

  /** Comparing the other way round flips the sign. */
  lemma {:induction false} CompareAntisymmetric(a: string, b: string)
    ensures Compare(a, b) == -Compare(b, a)
  {
    if a != [] && b != [] && a[0] == b[0] {
      CompareAntisymmetric(a[1..], b[1..]);
    }
  }

  /** Only equal strings compare equal. */
  lemma {:induction false} CompareZero(a: string, b: string)
    ensures Compare(a, b) == 0 <==> a == b
  {
    if a != [] && b != [] && a[0] == b[0] {
      CompareZero(a[1..], b[1..]);
      assert a == [a[0]] + a[1..] && b == [b[0]] + b[1..];
    }
  }

  /** "Not after" is transitive. */
  lemma {:induction false} CompareTransitive(a: string, b: string, c: string)
    requires Compare(a, b) <= 0 && Compare(b, c) <= 0
    ensures Compare(a, c) <= 0
  {
    if a != [] && b != [] && c != [] && a[0] == b[0] == c[0] {
      CompareTransitive(a[1..], b[1..], c[1..]);
    }
  }

  // ---------------------------------------------------------------- numbers

  predicate IsDigit(c: char) { '0' <= c <= '9' }

  predicate AllDigits(s: string) { forall i :: 0 <= i < |s| ==> IsDigit(s[i]) }

  function DigitChar(d: nat): (c: char)
    requires d < 10
    ensures IsDigit(c) && c as int - '0' as int == d
  {
    ('0' as int + d) as char
  }

  /** The number a string of decimal digits denotes (leading zeros allowed). */
  function DecimalValue(s: string): nat
    requires AllDigits(s)
  {
    if s == [] then 0 else DecimalValue(s[..|s| - 1]) * 10 + (s[|s| - 1] as int - '0' as int)
  }

  /** `String(n)` for a natural number: one digit below 10, two from 10 to 99. */
  function DecimalString(n: nat): (r: string)
    ensures |r| >= 1
    ensures |r| == 1 <==> n < 10
    ensures 10 <= n < 100 ==> |r| == 2
    decreases n
  {
    if n < 10 then [DigitChar(n)] else DecimalString(n / 10) + [DigitChar(n % 10)]
  }

  /** `String(n)` is decimal digits with no leading zero, reading back as `n`. */
  lemma {:induction false} DecimalDigits(n: nat)
    ensures var r := DecimalString(n);
      AllDigits(r) && DecimalValue(r) == n && (r[0] == '0' ==> n == 0)
    decreases n
  {
    if n >= 10 {
      DecimalDigits(n / 10);
      var p := DecimalString(n / 10);
      var r := DecimalString(n);
      assert r[..|r| - 1] == p;
    }
  }

  /** `s.padStart(width, fill)`: `s` preceded by as many `fill` as it takes to
      reach `width`. */
  function PadStart(s: string, width: nat, fill: char): (r: string)
    ensures |r| == if |s| >= width then |s| else width
    ensures r[|r| - |s|..] == s
    ensures forall i :: 0 <= i < |r| - |s| ==> r[i] == fill
    decreases width - |s|
  {
    if |s| >= width then s else PadStart([fill] + s, width, fill)
  }

  /** A leading zero does not change the value of a digit string. */
  lemma {:induction false} LeadingZero(s: string)
    requires AllDigits(s)
    ensures AllDigits(['0'] + s) && DecimalValue(['0'] + s) == DecimalValue(s)
  {
    var z := ['0'] + s;
    if s != [] {
      assert z[..|z| - 1] == ['0'] + s[..|s| - 1];
      LeadingZero(s[..|s| - 1]);
    }
  }
}
