/**
 * The JavaScript string operations the pipeline relies on: `trim`, `toLowerCase`,
 * `includes`, the code-point ordering standing for `<` and `Array.prototype.sort`,
 * `String(n)` for integers, `Number(s)` for integer numerals and the zero test
 * that `parseFloat` feeds in the table's column-visibility check.
 */
module JsStrings {

  datatype Option<T> = None | Some(value: T)

  // ---------------------------------------------------------------------------
  // Whitespace and trim
  // ---------------------------------------------------------------------------

  /** The WhiteSpace and LineTerminator code points that `String.prototype.trim` removes. */
  predicate IsWhitespace(c: char) {
    || c == '\t' || c == '\n' || c == '\U{B}' || c == '\U{C}' || c == '\r' || c == ' '
    || c == '\U{A0}' || c == '\U{1680}' || ('\U{2000}' <= c <= '\U{200A}')
    || c == '\U{2028}' || c == '\U{2029}' || c == '\U{202F}' || c == '\U{205F}'
    || c == '\U{3000}' || c == '\U{FEFF}'
  }

  /** No whitespace at either end: what `trim` guarantees of its result. */
  predicate IsTrimmed(s: string) {
    s == [] || (!IsWhitespace(s[0]) && !IsWhitespace(s[|s| - 1]))
  }

  predicate AllWhitespace(s: string) {
    forall i :: 0 <= i < |s| ==> IsWhitespace(s[i])
  }

  /** Drops leading whitespace; the result is a suffix of `s`. */
  function TrimStart(s: string): (r: string)
    ensures |r| <= |s| && r == s[|s| - |r|..]
    ensures AllWhitespace(s[..|s| - |r|])
    ensures r == [] || !IsWhitespace(r[0])
  {
    if |s| > 0 && IsWhitespace(s[0]) then TrimStart(s[1..]) else s
  }

  /** Drops trailing whitespace; the result is a prefix of `s`. */
  function TrimEnd(s: string): (r: string)
    ensures |r| <= |s| && r == s[..|r|]
    ensures AllWhitespace(s[|r|..])
    ensures r == [] || !IsWhitespace(r[|r| - 1])
  {
    if |s| > 0 && IsWhitespace(s[|s| - 1]) then
      var r := TrimEnd(s[..|s| - 1]);
      assert s[|r|..] == s[..|s| - 1][|r|..] + [s[|s| - 1]];
      r
    else s
  }

  /** `String.prototype.trim`: no whitespace left at either end, and never longer. */
  function Trim(s: string): (r: string)
    ensures IsTrimmed(r)
    ensures |r| <= |s|
  {
    var t := TrimStart(s);
    var r := TrimEnd(t);
    assert r != [] ==> r[0] == t[0];
    r
  }

  /** A trimmed string has no whitespace at either end, and trimming it again changes nothing. */
  lemma TrimIsTrimmed(s: string)
    ensures IsTrimmed(Trim(s))
    ensures Trim(Trim(s)) == Trim(s)
  {
    var r := Trim(s);
    if r != [] {
      assert TrimStart(r) == r;
    }
  }

  /** Leading whitespace does not change where `trimStart` stops. */
  lemma {:induction false} TrimStartSkips(w: string, x: string)
    requires AllWhitespace(w)
    ensures TrimStart(w + x) == TrimStart(x)
    decreases |w|
  {
    if w != [] {
      var y := w + x;
      assert y[0] == w[0] && IsWhitespace(w[0]);
      assert TrimStart(y) == TrimStart(y[1..]);
      assert y[1..] == w[1..] + x;
      assert AllWhitespace(w[1..]) by {
        forall i | 0 <= i < |w[1..]| ensures IsWhitespace(w[1..][i]) {
          assert w[1..][i] == w[i + 1];
        }
      }
      TrimStartSkips(w[1..], x);
    } else {
      assert w + x == x;
    }
  }

  /** Trailing whitespace does not change where `trimEnd` stops. */
  lemma {:induction false} TrimEndSkips(x: string, w: string)
    requires AllWhitespace(w)
    ensures TrimEnd(x + w) == TrimEnd(x)
    decreases |w|
  {
    if w != [] {
      var v := w[..|w| - 1];
      var y := x + w;
      assert y[|y| - 1] == w[|w| - 1] && IsWhitespace(w[|w| - 1]);
      assert TrimEnd(y) == TrimEnd(y[..|y| - 1]);
      assert y[..|y| - 1] == x + v;
      assert AllWhitespace(v) by {
        forall i | 0 <= i < |v| ensures IsWhitespace(v[i]) {
          assert v[i] == w[i];
        }
      }
      TrimEndSkips(x, v);
    } else {
      assert x + w == x;
    }
  }

  /** Trimming a trimmed text padded with whitespace on both sides gives back the text. */
  lemma TrimPadded(before: string, t: string, after: string)
    requires AllWhitespace(before) && AllWhitespace(after) && IsTrimmed(t)
    ensures Trim(before + t + after) == t
  {
    assert before + t + after == before + (t + after);
    TrimStartSkips(before, t + after);
    if t == [] {
      assert t + after == after;
      TrimEmptyIff(after);
    } else {
      assert TrimStart(t + after) == t + after;
      TrimEndSkips(t, after);
    }
  }

  /** `trim` gives the empty string exactly when its argument is all whitespace. */
  lemma TrimEmptyIff(s: string)
    ensures Trim(s) == [] <==> AllWhitespace(s)
  {
    var t := TrimStart(s);
    assert t != [] ==> t[0] == s[|s| - |t|];
    if TrimEnd(t) == [] {
      assert t[0..] == t;
      assert s[..|s| - |t|] == s;
    }
  }

  // ---------------------------------------------------------------------------
  // Lowercase
  // ---------------------------------------------------------------------------

  /** `toLowerCase` on one character, for the Basic Latin and Latin-1 letters. */
  function LowerChar(c: char): char {
    if IsUpper(c) then (c as int + 32) as char
    else c
  }

  /** `String.prototype.toLowerCase`, character by character. */
  function Lower(s: string): (r: string)
    ensures |r| == |s|
    ensures forall i :: 0 <= i < |s| ==> r[i] == LowerChar(s[i])
  {
    seq(|s|, i requires 0 <= i < |s| => LowerChar(s[i]))
  }

  /** An upper-case letter of Basic Latin or Latin-1. */
  predicate IsUpper(c: char) {
    'A' <= c <= 'Z' || ('\U{C0}' <= c <= '\U{DE}' && c != '\U{D7}')
  }

  /**
   * Lowercasing leaves no upper-case letter, changes a text exactly when it
   * has one, and lowercasing again changes nothing.
   */
  lemma LowerMeaning(s: string)
    ensures forall i :: 0 <= i < |s| ==> !IsUpper(Lower(s)[i])
    ensures Lower(s) == s <==> forall i :: 0 <= i < |s| ==> !IsUpper(s[i])
    ensures Lower(Lower(s)) == Lower(s)
  {
    if forall i :: 0 <= i < |s| ==> !IsUpper(s[i]) {
      assert Lower(s) == s;
    }
    assert Lower(Lower(s)) == Lower(s);
  }

  /** Two texts that differ only in letter case lowercase to the same text. */
  lemma LowerIgnoresCase()
    ensures Lower("TRUE") == "true" && Lower("True") == "true" && Lower("Hospital") == "hospital"
  {
  }

  // ---------------------------------------------------------------------------
  // Substring search
  // ---------------------------------------------------------------------------

  predicate IsPrefix(p: string, s: string) {
    |p| <= |s| && s[..|p|] == p
  }

  /** `sub` occurs in `s` starting at position `i`. */
  predicate OccursAt(s: string, sub: string, i: int) {
    0 <= i && i + |sub| <= |s| && s[i..i + |sub|] == sub
  }

  /** `s.includes(sub)`: `sub` occurs in `s` at some position. */
  predicate Includes(s: string, sub: string)
    ensures Includes(s, sub) ==> |sub| <= |s|
    decreases |s|
  {
    IsPrefix(sub, s) || (|s| > 0 && Includes(s[1..], sub))
  }

  /** `Includes` agrees with the positional definition of a substring. */
  lemma {:induction false} IncludesAt(s: string, sub: string)
    ensures Includes(s, sub) <==> exists i :: OccursAt(s, sub, i)
    decreases |s|
  {
    if IsPrefix(sub, s) {
      assert OccursAt(s, sub, 0);
    } else if |s| == 0 {
      assert forall i :: !OccursAt(s, sub, i);
    } else {
      IncludesAt(s[1..], sub);
      if Includes(s[1..], sub) {
        var i :| OccursAt(s[1..], sub, i);
        assert OccursAt(s, sub, i + 1);
      } else {
        assert !OccursAt(s, sub, 0);
        forall i | 0 < i ensures OccursAt(s, sub, i) ==> OccursAt(s[1..], sub, i - 1) {
          if OccursAt(s, sub, i) {
            assert s[1..][i - 1..i - 1 + |sub|] == s[i..i + |sub|];
          }
        }
      }
    }
  }

  // ---------------------------------------------------------------------------
  // Code-point ordering (`<` on strings, default `sort`, and the model of `localeCompare`)
  // ---------------------------------------------------------------------------

  /** `a < b` on strings: lexicographic on code points, a proper prefix first. */
  predicate LexLess(a: string, b: string)
    decreases |a|
  {
    if |a| == 0 then |b| > 0
    else if |b| == 0 then false
    else if a[0] != b[0] then a[0] < b[0]
    else LexLess(a[1..], b[1..])
  }

  predicate LexLe(a: string, b: string) {
    a == b || LexLess(a, b)
  }

  lemma {:induction false} LexLessIrreflexive(a: string)
    ensures !LexLess(a, a)
  {
    if |a| > 0 { LexLessIrreflexive(a[1..]); }
  }

  lemma {:induction false} LexLessAsymmetric(a: string, b: string)
    ensures LexLess(a, b) ==> !LexLess(b, a)
  {
    if |a| > 0 && |b| > 0 && a[0] == b[0] { LexLessAsymmetric(a[1..], b[1..]); }
  }

  lemma {:induction false} LexLessTransitive(a: string, b: string, c: string)
    requires LexLess(a, b) && LexLess(b, c)
    ensures LexLess(a, c)
  {
    if |a| > 0 && |b| > 0 && |c| > 0 && a[0] == b[0] && b[0] == c[0] {
      LexLessTransitive(a[1..], b[1..], c[1..]);
    }
  }

  lemma {:induction false} LexLessTotal(a: string, b: string)
    ensures a == b || LexLess(a, b) || LexLess(b, a)
  {
    if |a| > 0 && |b| > 0 && a[0] == b[0] {
      LexLessTotal(a[1..], b[1..]);
      if a[1..] == b[1..] { assert a == [a[0]] + a[1..] && b == [b[0]] + b[1..]; }
    }
  }

  /** `LexLess` is a strict total order on strings. */
  lemma LexLessStrictTotalOrder()
    ensures forall a :: !LexLess(a, a)
    ensures forall a, b :: LexLess(a, b) ==> !LexLess(b, a)
    ensures forall a, b, c :: LexLess(a, b) && LexLess(b, c) ==> LexLess(a, c)
    ensures forall a, b :: a == b || LexLess(a, b) || LexLess(b, a)
  {
    forall a ensures !LexLess(a, a) { LexLessIrreflexive(a); }
    forall a, b ensures LexLess(a, b) ==> !LexLess(b, a) { LexLessAsymmetric(a, b); }
    forall a, b ensures a == b || LexLess(a, b) || LexLess(b, a) { LexLessTotal(a, b); }
    forall a, b, c | LexLess(a, b) && LexLess(b, c) { LexLessTransitive(a, b, c); }
  }

  /** `a.localeCompare(b)`, modelled as the code-point order: negative, zero or positive. */
  function LocaleCompare(a: string, b: string): (r: int)
    ensures r < 0 <==> LexLess(a, b)
    ensures r == 0 <==> a == b
    ensures r > 0 <==> LexLess(b, a)
  {
    LexLessIrreflexive(a);
    LexLessAsymmetric(a, b);
    LexLessTotal(a, b);
    if a == b then 0 else if LexLess(a, b) then -1 else 1
  }

  // ---------------------------------------------------------------------------
  // Sorted distinct strings (`Array.from(new Set(...)).sort()`)
  // ---------------------------------------------------------------------------

  predicate StrictlyIncreasing(s: seq<string>) {
    forall i, j :: 0 <= i < j < |s| ==> LexLess(s[i], s[j])
  }

  predicate IsLeast(m: string, s: set<string>) {
    m in s && forall y :: y in s ==> LexLe(m, y)
  }

  lemma {:induction false} LeastExists(s: set<string>)
    requires s != {}
    ensures exists m :: IsLeast(m, s)
    decreases |s|
  {
    var x :| x in s;
    if s == {x} {
      assert IsLeast(x, s);
    } else {
      LeastExists(s - {x});
      var m :| IsLeast(m, s - {x});
      LexLessTotal(m, x);
      if LexLess(x, m) {
        forall y | y in s ensures LexLe(x, y) {
          if y != x && y != m {
            assert y in s - {x};
            LexLessTransitive(x, m, y);
          }
        }
        assert IsLeast(x, s);
      } else {
        assert IsLeast(m, s);
      }
    }
  }

  /**
   * The elements of a set in increasing order: the result of sorting the
   * distinct values of a JavaScript `Set` with the default comparator.
   */
  function SortedFromSet(s: set<string>): (r: seq<string>)
    ensures StrictlyIncreasing(r)
    ensures forall x :: x in r <==> x in s
    ensures |r| == |s|
    decreases |s|
  {
    if s == {} then []
    else
      LeastExists(s);
      LexLessStrictTotalOrder();
      var m :| IsLeast(m, s);
      var rest := SortedFromSet(s - {m});
      assert forall x :: x in rest ==> LexLess(m, x);
      [m] + rest
  }

  /** An increasing sequence is determined by its elements. */
  lemma {:induction false} StrictlyIncreasingUnique(a: seq<string>, b: seq<string>)
    requires StrictlyIncreasing(a) && StrictlyIncreasing(b)
    requires forall x :: x in a <==> x in b
    ensures a == b
  {
    LexLessStrictTotalOrder();
    assert a != [] ==> a[0] in b;
    assert b != [] ==> b[0] in a;
    if a != [] && b != [] {
      var i :| 0 <= i < |a| && a[i] == b[0];
      var j :| 0 <= j < |b| && b[j] == a[0];
      assert LexLe(a[0], a[i]) && LexLe(b[0], b[j]);
      assert a[0] == b[0];
      forall x ensures x in a[1..] <==> x in b[1..] {
        if x in a[1..] {
          var k :| 1 <= k < |a| && a[k] == x;
          assert LexLess(a[0], x);
          assert x in b;
          var m :| 0 <= m < |b| && b[m] == x;
          assert m != 0;
          assert b[1..][m - 1] == x;
        }
        if x in b[1..] {
          var k :| 1 <= k < |b| && b[k] == x;
          assert LexLess(b[0], x);
          assert x in a;
          var m :| 0 <= m < |a| && a[m] == x;
          assert m != 0;
          assert a[1..][m - 1] == x;
        }
      }
      StrictlyIncreasingUnique(a[1..], b[1..]);
      assert a == [a[0]] + a[1..] && b == [b[0]] + b[1..];
    }
  }

  // ---------------------------------------------------------------------------
  // Numbers as text
  // ---------------------------------------------------------------------------

  predicate IsDigit(c: char) {
    '0' <= c <= '9'
  }

  predicate AllDigits(s: string) {
    forall i :: 0 <= i < |s| ==> IsDigit(s[i])
  }

  function DigitChar(d: nat): (c: char)
    requires d < 10
    ensures IsDigit(c)
  {
    (('0' as int) + d) as char
  }

  function DigitValue(c: char): nat
    requires IsDigit(c)
  {
    (c as int) - ('0' as int)
  }

  function NatToString(n: nat): (r: string)
    ensures |r| > 0 && forall i :: 0 <= i < |r| ==> IsDigit(r[i])
    decreases n
  {
    if n < 10 then [DigitChar(n)] else NatToString(n / 10) + [DigitChar(n % 10)]
  }

  /** `String(n)` for an integer `n` (decimal, `-` for negatives). */
  function IntToString(n: int): (r: string)
    ensures |r| > 0 && forall i :: 0 <= i < |r| ==> IsDigit(r[i]) || r[i] == '-'
    ensures IsDigit(r[|r| - 1]) && (r[0] == '-' <==> n < 0)
  {
    if n < 0 then "-" + NatToString(-n) else NatToString(n)
  }

  /** The value of a run of decimal digits. */
  function DigitsValue(s: string): nat
    requires AllDigits(s)
    decreases |s|
  {
    if s == [] then 0 else DigitsValue(s[..|s| - 1]) * 10 + DigitValue(s[|s| - 1])
  }

  /**
   * `Number(s)` restricted to integers: the trimmed text is empty (giving 0) or an
   * optional sign followed by decimal digits; anything else is `None` (JavaScript's NaN).
   */
  function StringToNumber(s: string): (r: Option<int>)
    ensures AllWhitespace(s) ==> r == Some(0)
  {
    TrimEmptyIff(s);
    NumeralValue(Trim(s))
  }

  /** The value of a trimmed numeral, as `Number` reads it. */
  function NumeralValue(t: string): Option<int> {
    if t == [] then Some(0)
    else if (t[0] == '+' || t[0] == '-') && |t| > 1 && AllDigits(t[1..]) then
      Some(if t[0] == '-' then -(DigitsValue(t[1..]) as int) else DigitsValue(t[1..]))
    else if AllDigits(t) then Some(DigitsValue(t))
    else None
  }

  lemma {:induction false} NatToStringValue(n: nat)
    ensures DigitsValue(NatToString(n)) == n
    decreases n
  {
    if n >= 10 {
      var s := NatToString(n);
      assert s[..|s| - 1] == NatToString(n / 10);
      NatToStringValue(n / 10);
    }
  }

  lemma DigitNotWhitespace(c: char)
    requires IsDigit(c)
    ensures !IsWhitespace(c)
  {
  }

  lemma TrimNoBlankEnds(s: string)
    requires s != [] && !IsWhitespace(s[0]) && !IsWhitespace(s[|s| - 1])
    ensures Trim(s) == s
  {
    assert TrimStart(s) == s;
  }

  lemma NegatedNumeral(t: string)
    requires |t| > 1 && t[0] == '-' && AllDigits(t[1..])
    ensures NumeralValue(t) == Some(-(DigitsValue(t[1..]) as int))
  {
  }

  lemma IntToStringTrimmed(n: int)
    ensures Trim(IntToString(n)) == IntToString(n)
  {
    var s := IntToString(n);
    DigitNotWhitespace(s[|s| - 1]);
    if s[0] != '-' {
      DigitNotWhitespace(s[0]);
    }
    TrimNoBlankEnds(s);
  }

  lemma {:induction false} NumeralOfIntToString(n: int)
    ensures NumeralValue(IntToString(n)) == Some(n)
  {
    var t := IntToString(n);
    if n < 0 {
      assert t[1..] == NatToString(-n);
      NegatedNumeral(t);
      NatToStringValue(-n);
    } else {
      NatToStringValue(n);
    }
  }

  /** `Number(String(n)) == n`: reading back the decimal text of an integer gives the integer. */
  lemma NumberOfIntToString(n: int)
    ensures StringToNumber(IntToString(n)) == Some(n)
  {
    IntToStringTrimmed(n);
    NumeralOfIntToString(n);
  }

  /** The longest prefix of `s` made of decimal digits. */
  function DigitPrefix(s: string): (r: string)
    ensures |r| <= |s| && r == s[..|r|] && AllDigits(r)
    ensures |r| < |s| ==> !IsDigit(s[|r|])
    decreases |s|
  {
    if |s| > 0 && IsDigit(s[0]) then [s[0]] + DigitPrefix(s[1..]) else []
  }

  predicate AllZeros(s: string) {
    forall i :: 0 <= i < |s| ==> s[i] == '0'
  }

  /**
   * Whether `parseFloat(s)` is zero: after leading whitespace and an optional
   * sign, the longest decimal mantissa (digits, optionally a point and more
   * digits) has at least one digit and every digit is `0`. An exponent after a
   * zero mantissa cannot make it non-zero.
   */
  predicate LeadingNumeralIsZero(s: string)
    ensures LeadingNumeralIsZero(s) ==> s != []
  {
    var t := TrimStart(s);
    var u := if |t| > 0 && (t[0] == '+' || t[0] == '-') then t[1..] else t;
    var intDigits := DigitPrefix(u);
    var rest := u[|intDigits|..];
    var fracDigits := if |rest| > 0 && rest[0] == '.' then DigitPrefix(rest[1..]) else [];
    |intDigits| + |fracDigits| > 0 && AllZeros(intDigits + fracDigits)
  }
}
