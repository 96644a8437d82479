/**
 Character classes and string operations that the tracker borrows from
 JavaScript: the regular-expression class `\w`, ASCII case mapping,
 `String.prototype.trim`, `String.prototype.includes` and the relational
 operator `<` on strings, together with the fact that `<` on ISO dates
 ("YYYY-MM-DD") agrees with chronological order.
 */
module Text {

  /* ---------------------------------------------------------------------- */
  /* Character classes                                                      */
  /* ---------------------------------------------------------------------- */

  /** The class `\w` of a JavaScript regular expression without the `u` flag. */
  predicate IsWordChar(c: char) {
    ('a' <= c <= 'z') || ('A' <= c <= 'Z') || ('0' <= c <= '9') || c == '_'
  }

  predicate IsLowerAscii(c: char) {
    'a' <= c <= 'z'
  }

  predicate IsUpperAscii(c: char) {
    'A' <= c <= 'Z'
  }

  predicate IsDigit(c: char) {
    '0' <= c <= '9'
  }

  /** The code points that `trim` removes: ECMAScript WhiteSpace (including
      every space separator) and LineTerminator. */
  predicate IsWhitespace(c: char) {
    var n := c as int;
    n == 0x09 || n == 0x0A || n == 0x0B || n == 0x0C || n == 0x0D || n == 0x20
    || n == 0xA0 || n == 0x1680 || (0x2000 <= n <= 0x200A) || n == 0x2028
    || n == 0x2029 || n == 0x202F || n == 0x205F || n == 0x3000 || n == 0xFEFF
  }

  ghost predicate AllWhitespace(s: string) {
    forall k :: 0 <= k < |s| ==> IsWhitespace(s[k])
  }

  /** `toUpperCase` on a single ASCII character. */
  function UpperChar(c: char): (u: char)
    ensures IsLowerAscii(c) ==> IsUpperAscii(u) && u as int == c as int - 32
    ensures !IsLowerAscii(c) ==> u == c
  {
    if IsLowerAscii(c) then (c as int - 32) as char else c
  }

  /** `toLowerCase` on a single ASCII character. */
  function LowerChar(c: char): (l: char)
    ensures IsUpperAscii(c) ==> IsLowerAscii(l) && l as int == c as int + 32
    ensures !IsUpperAscii(c) ==> l == c
  {
    if IsUpperAscii(c) then (c as int + 32) as char else c
  }

  /** `toLowerCase` on a string, restricted to ASCII letters. */
  function ToLower(s: string): string {
    seq(|s|, i requires 0 <= i < |s| => LowerChar(s[i]))
  }

  lemma ToLowerIdempotent(s: string)
    ensures ToLower(ToLower(s)) == ToLower(s)
    ensures forall k :: 0 <= k < |s| ==> !IsUpperAscii(ToLower(s)[k])
  {
  }

  /* ---------------------------------------------------------------------- */
  /* trim                                                                   */
  /* ---------------------------------------------------------------------- */

  /** Drops the leading whitespace: what is dropped is whitespace, and what
      is kept is a suffix of `s` that does not start with whitespace. */
  function TrimStart(s: string): (r: string)
    ensures |r| <= |s| && r == s[|s| - |r|..]
    ensures AllWhitespace(s[..|s| - |r|])
    ensures r == [] || !IsWhitespace(r[0])
    decreases |s|
  {
    if |s| > 0 && IsWhitespace(s[0]) then
      var t := s[1..];
      var r := TrimStart(t);
      assert r == s[|s| - |r|..] by { assert t[|t| - |r|..] == s[|s| - |r|..]; }
      var n := |s| - |r|;
      assert AllWhitespace(s[..n]) by {
        forall k | 0 <= k < n ensures IsWhitespace(s[..n][k]) {
          if k > 0 { assert s[..n][k] == t[..n - 1][k - 1]; }
        }
      }
      r
    else
      assert s[..0] == [];
      s
  }

  /** Drops the trailing whitespace: what is dropped is whitespace, and what
      is kept is a prefix of `s` that does not end with whitespace. */
  function TrimEnd(s: string): (r: string)
    ensures |r| <= |s| && r == s[..|r|]
    ensures AllWhitespace(s[|r|..])
    ensures r == [] || !IsWhitespace(r[|r| - 1])
    decreases |s|
  {
    if |s| > 0 && IsWhitespace(s[|s| - 1]) then
      var t := s[..|s| - 1];
      var r := TrimEnd(t);
      assert r == s[..|r|] by { assert t[..|r|] == s[..|r|]; }
      assert AllWhitespace(s[|r|..]) by {
        forall k | 0 <= k < |s| - |r| ensures IsWhitespace(s[|r|..][k]) {
          if |r| + k < |t| { assert s[|r|..][k] == t[|r|..][k]; }
        }
      }
      r
    else
      assert s[|s|..] == [];
      s
  }

  /** `String.prototype.trim`. The result is a contiguous piece of `s` with
      no whitespace at either end, everything cut off is whitespace, and the
      result is empty exactly when `s` is entirely whitespace. */
  function Trim(s: string): (r: string)
    ensures |r| <= |s|
    ensures r == [] || (!IsWhitespace(r[0]) && !IsWhitespace(r[|r| - 1]))
    ensures r == [] <==> AllWhitespace(s)
    ensures exists i :: (0 <= i <= |s| - |r| && r == s[i..][..|r|]
      && AllWhitespace(s[..i]) && AllWhitespace(s[i..][|r|..]))
  {
    TrimPieces(s);
    TrimEnd(TrimStart(s))
  }

  /** Trimming both ends of `s` keeps the piece of `s` starting where the
      leading whitespace ends, and keeps nothing only when all of `s` is
      whitespace. */
  lemma TrimPieces(s: string)
    ensures var t := TrimStart(s); var r := TrimEnd(t); var i := |s| - |t|;
      && r == s[i..][..|r|]
      && AllWhitespace(s[..i]) && AllWhitespace(s[i..][|r|..])
      && (r == [] <==> AllWhitespace(s))
  {
    var t := TrimStart(s);
    var r := TrimEnd(t);
    var i := |s| - |t|;
    assert r == s[i..][..|r|];
    if r != [] {
      assert r[0] == s[i];
    }
    if t != [] {
      assert t[0..] == t;
      assert !AllWhitespace(t) by { assert !IsWhitespace(t[0]); }
      assert r != [];
    } else {
      assert s[..i] == s;
    }
  }

  /** Trimming the start of whitespace followed by text that does not start
      with whitespace gives back that text. */
  lemma {:induction false} TrimStartPadded(pre: string, rest: string)
    requires AllWhitespace(pre)
    requires rest == [] || !IsWhitespace(rest[0])
    ensures TrimStart(pre + rest) == rest
    decreases |pre|
  {
    if pre == [] {
      assert pre + rest == rest;
    } else {
      assert (pre + rest)[0] == pre[0];
      assert (pre + rest)[1..] == pre[1..] + rest;
      TrimStartPadded(pre[1..], rest);
    }
  }

  /** Trimming the end of text that does not end with whitespace followed
      by whitespace gives back that text. */
  lemma {:induction false} TrimEndPadded(rest: string, post: string)
    requires AllWhitespace(post)
    requires rest == [] || !IsWhitespace(rest[|rest| - 1])
    ensures TrimEnd(rest + post) == rest
    decreases |post|
  {
    if post == [] {
      assert rest + post == rest;
    } else {
      var s := rest + post;
      assert s[|s| - 1] == post[|post| - 1];
      assert s[..|s| - 1] == rest + post[..|post| - 1];
      TrimEndPadded(rest, post[..|post| - 1]);
    }
  }

  /** Trimming padded text gives back the text: `Trim` undoes adding
      whitespace at either end of a string that has none at its ends. */
  lemma TrimOfPadded(pre: string, core: string, post: string)
    requires AllWhitespace(pre) && AllWhitespace(post)
    requires core == [] || (!IsWhitespace(core[0]) && !IsWhitespace(core[|core| - 1]))
    ensures Trim(pre + core + post) == core
  {
    if core == [] {
      assert AllWhitespace(pre + core + post);
    } else {
      assert pre + core + post == pre + (core + post);
      assert (core + post)[0] == core[0];
      TrimStartPadded(pre, core + post);
      TrimEndPadded(core, post);
    }
  }

  lemma TrimIdempotent(s: string)
    ensures Trim(Trim(s)) == Trim(s)
  {
    var r := Trim(s);
    assert TrimStart(r) == r;
    assert TrimEnd(r) == r;
  }

  /* ---------------------------------------------------------------------- */
  /* includes                                                               */
  /* ---------------------------------------------------------------------- */

  /** `needle` occurs somewhere in `hay` (the reference meaning of includes). */
  ghost predicate IsSubstring(needle: string, hay: string) {
    exists i :: 0 <= i <= |hay| && needle <= hay[i..]
  }

  /** `String.prototype.includes`: tries every start position from the left. */
  function Includes(hay: string, needle: string): (r: bool)
    ensures r <==> IsSubstring(needle, hay)
    decreases |hay|
  {
    if needle <= hay then
      assert hay[0..] == hay;
      true
    else if |hay| == 0 then
      false
    else
      var r := Includes(hay[1..], needle);
      assert r ==> IsSubstring(needle, hay) by {
        if r {
          var i :| 0 <= i <= |hay[1..]| && needle <= hay[1..][i..];
          assert hay[1..][i..] == hay[i + 1..];
        }
      }
      assert IsSubstring(needle, hay) ==> r by {
        if IsSubstring(needle, hay) {
          var i :| 0 <= i <= |hay| && needle <= hay[i..];
          assert i != 0 by { assert hay[0..] == hay; }
          assert hay[1..][i - 1..] == hay[i..];
        }
      }
      r
  }

  /* ---------------------------------------------------------------------- */
  /* The relational operator < on strings                                   */
  /* ---------------------------------------------------------------------- */

  /** `a < b` for JavaScript strings: compares character by character, and a
      proper prefix is smaller than the longer string. (Dafny's own `<` on
      sequences means "proper prefix", which is not this.) */
  predicate LexLess(a: string, b: string)
    decreases |a|
  {
    |b| > 0 && (|a| == 0 || a[0] < b[0] || (a[0] == b[0] && LexLess(a[1..], b[1..])))
  }

  /** The closed-form reading of `LexLess`: either `a` is a proper prefix of
      `b`, or the first position where they differ has the smaller character
      in `a`. */
  lemma {:induction false} LexLessIff(a: string, b: string)
    ensures LexLess(a, b) <==>
      (a < b || exists k :: 0 <= k < |a| && k < |b| && a[..k] == b[..k] && a[k] < b[k])
    decreases |a|
  {
    if |a| == 0 || |b| == 0 {
      if |a| == 0 && |b| > 0 {
        assert a < b;
      }
    } else {
      LexLessIff(a[1..], b[1..]);
      if a[0] < b[0] {
        assert a[..0] == b[..0];
      } else if a[0] == b[0] {
        if LexLess(a[1..], b[1..]) {
          if !(a[1..] < b[1..]) {
            var k :| 0 <= k < |a[1..]| && k < |b[1..]| && a[1..][..k] == b[1..][..k] && a[1..][k] < b[1..][k];
            assert a[..k + 1] == [a[0]] + a[1..][..k];
            assert b[..k + 1] == [b[0]] + b[1..][..k];
          } else {
            assert a[..|a|] == [a[0]] + a[1..];
            assert b[..|a|] == [b[0]] + b[1..][..|a| - 1];
          }
        }
        if a < b {
          assert a[1..] < b[1..] by {
            assert a[1..] == b[1..][..|a| - 1];
          }
        }
        if exists k :: 0 <= k < |a| && k < |b| && a[..k] == b[..k] && a[k] < b[k] {
          var k :| 0 <= k < |a| && k < |b| && a[..k] == b[..k] && a[k] < b[k];
          assert k != 0;
          assert a[1..][..k - 1] == a[..k][1..] == b[..k][1..] == b[1..][..k - 1];
          assert a[1..][k - 1] < b[1..][k - 1];
        }
      } else {
        forall k | 0 < k <= |a| && k <= |b|
          ensures a[..k] != b[..k]
        {
          assert a[..k][0] != b[..k][0];
        }
        if |a| <= |b| {
          assert b[..|a|][0] != a[0];
        }
      }
    }
  }

  lemma {:induction false} LexLessIrreflexive(a: string)
    ensures !LexLess(a, a)
    decreases |a|
  {
    if |a| > 0 {
      LexLessIrreflexive(a[1..]);
    }
  }

  lemma {:induction false} LexLessTransitive(a: string, b: string, c: string)
    requires LexLess(a, b) && LexLess(b, c)
    ensures LexLess(a, c)
    decreases |a|
  {
    if |a| > 0 && a[0] == b[0] && b[0] == c[0] {
      LexLessTransitive(a[1..], b[1..], c[1..]);
    }
  }

  /** Any two distinct strings are ordered one way or the other. */
  lemma {:induction false} LexLessTotal(a: string, b: string)
    requires a != b
    ensures LexLess(a, b) || LexLess(b, a)
    decreases |a|
  {
    if |a| > 0 && |b| > 0 && a[0] == b[0] {
      assert a == [a[0]] + a[1..] && b == [b[0]] + b[1..];
      LexLessTotal(a[1..], b[1..]);
    }
  }

  /** Comparing two concatenations whose first parts have equal lengths
      compares the first parts, and the second parts when those are equal. */
  lemma {:induction false} LexLessConcat(p: string, x: string, q: string, y: string)
    requires |p| == |q|
    ensures LexLess(p + x, q + y) <==> LexLess(p, q) || (p == q && LexLess(x, y))
    decreases |p|
  {
    if |p| == 0 {
      assert p + x == x && q + y == y;
    } else {
      assert (p + x)[1..] == p[1..] + x;
      assert (q + y)[1..] == q[1..] + y;
      LexLessConcat(p[1..], x, q[1..], y);
      if p[0] == q[0] && p[1..] == q[1..] {
        assert p == [p[0]] + p[1..] && q == [q[0]] + q[1..];
      }
    }
  }

  /* ---------------------------------------------------------------------- */
  /* Decimal digits and ISO dates                                           */
  /* ---------------------------------------------------------------------- */

  ghost predicate AllDigits(s: string) {
    forall k :: 0 <= k < |s| ==> IsDigit(s[k])
  }

  function DigitValue(c: char): (d: nat)
    requires IsDigit(c)
    ensures d <= 9
  {
    c as int - '0' as int
  }

  function Pow10(n: nat): (p: nat)
    ensures p >= 1
  {
    if n == 0 then 1 else 10 * Pow10(n - 1)
  }

  /** The number a string of decimal digits denotes, read most significant
      digit first. */
  function DecimalValue(s: string): nat
    requires AllDigits(s)
    decreases |s|
  {
    if |s| == 0 then 0
    else DigitValue(s[0]) * Pow10(|s| - 1) + DecimalValue(s[1..])
  }

  /** A string of `n` digits denotes a number below `10^n`. */
  lemma {:induction false} DecimalValueBound(s: string)
    requires AllDigits(s)
    ensures DecimalValue(s) < Pow10(|s|)
    decreases |s|
  {
    if |s| > 0 {
      DecimalValueBound(s[1..]);
      DecimalValueHead(s);
      LeadingDigitBound(DigitValue(s[0]), Pow10(|s| - 1), DecimalValue(s[1..]));
    }
  }

  /** A leading digit followed by fewer than `p` stays below the next power. */
  lemma LeadingDigitBound(d: nat, p: nat, t: nat)
    requires d <= 9 && t < p
    ensures d * p + t < 10 * p
  {
    assert d * p <= 9 * p;
  }

  /** On digit strings of equal length, `<` is numeric comparison. */
  lemma {:induction false} DigitsLexIsNumeric(x: string, y: string)
    requires AllDigits(x) && AllDigits(y) && |x| == |y|
    ensures LexLess(x, y) <==> DecimalValue(x) < DecimalValue(y)
    ensures x == y <==> DecimalValue(x) == DecimalValue(y)
    decreases |x|
  {
    if |x| > 0 {
      var p := Pow10(|x| - 1);
      DigitsLexIsNumeric(x[1..], y[1..]);
      var dx, dy := DigitValue(x[0]), DigitValue(y[0]);
      var tx, ty := DecimalValue(x[1..]), DecimalValue(y[1..]);
      DecimalValueHead(x);
      DecimalValueHead(y);
      DecimalValueBound(x[1..]);
      DecimalValueBound(y[1..]);
      if dx < dy {
        LeadingDigitDominates(dx, tx, dy, ty, p);
      } else if dy < dx {
        LeadingDigitDominates(dy, ty, dx, tx, p);
      } else {
        assert x[0] == y[0];
        if x[1..] == y[1..] {
          assert x == [x[0]] + x[1..] && y == [y[0]] + y[1..];
        }
      }
    }
  }

  lemma LeadingDigitDominates(d1: nat, t1: nat, d2: nat, t2: nat, p: nat)
    requires d1 < d2 && t1 < p
    ensures d1 * p + t1 < d2 * p + t2
  {
    calc {
      d1 * p + t1;
    <
      d1 * p + p;
    ==
      (d1 + 1) * p;
    <=  { assert d1 + 1 <= d2; }
      d2 * p;
    <=
      d2 * p + t2;
    }
  }

  /** A date as `Date.prototype.toISOString().slice(0, 10)` renders it. */
  ghost predicate IsIsoDate(s: string) {
    && |s| == 10
    && AllDigits(s[0..4]) && s[4] == '-'
    && AllDigits(s[5..7]) && s[7] == '-'
    && AllDigits(s[8..10])
  }

  function Year(s: string): nat
    requires IsIsoDate(s)
  {
    DecimalValue(s[0..4])
  }

  function Month(s: string): nat
    requires IsIsoDate(s)
  {
    DecimalValue(s[5..7])
  }

  function Day(s: string): nat
    requires IsIsoDate(s)
  {
    DecimalValue(s[8..10])
  }

  /** Date `a` falls strictly before date `b` on the calendar. */
  ghost predicate ChronologicallyBefore(a: string, b: string)
    requires IsIsoDate(a) && IsIsoDate(b)
  {
    || Year(a) < Year(b)
    || (Year(a) == Year(b) && Month(a) < Month(b))
    || (Year(a) == Year(b) && Month(a) == Month(b) && Day(a) < Day(b))
  }

  /** The string order the tracker uses on due dates is the calendar order. */
  lemma IsoDateLexIsChronological(a: string, b: string)
    requires IsIsoDate(a) && IsIsoDate(b)
    ensures LexLess(a, b) <==> ChronologicallyBefore(a, b)
  {
    assert a == a[0..4] + (a[4..5] + (a[5..7] + (a[7..8] + a[8..10])));
    assert b == b[0..4] + (b[4..5] + (b[5..7] + (b[7..8] + b[8..10])));
    assert a[4..5] == b[4..5] == "-";
    assert a[7..8] == b[7..8] == "-";
    LexLessIrreflexive("-");
    LexLessConcat(a[7..8], a[8..10], b[7..8], b[8..10]);
    LexLessConcat(a[5..7], a[7..8] + a[8..10], b[5..7], b[7..8] + b[8..10]);
    LexLessConcat(a[4..5], a[5..7] + (a[7..8] + a[8..10]), b[4..5], b[5..7] + (b[7..8] + b[8..10]));
    LexLessConcat(a[0..4], a[4..5] + (a[5..7] + (a[7..8] + a[8..10])),
                  b[0..4], b[4..5] + (b[5..7] + (b[7..8] + b[8..10])));
    DigitsLexIsNumeric(a[0..4], b[0..4]);
    DigitsLexIsNumeric(a[5..7], b[5..7]);
    DigitsLexIsNumeric(a[8..10], b[8..10]);
  }

  /** `Number.prototype.toString()` for a non-negative integer. */
  function DecimalString(n: nat): (s: string)
    ensures |s| > 0 && AllDigits(s)
    ensures DecimalValue(s) == n
    ensures |s| > 1 ==> s[0] != '0'
  {
    var d := (n % 10 + '0' as int) as char;
    if n < 10 then
      [d]
    else
      var prefix := DecimalString(n / 10);
      DecimalValueAppend(prefix, d);
      prefix + [d]
  }

  /** Appending a digit multiplies the value by ten and adds that digit. */
  lemma {:induction false} DecimalValueAppend(s: string, d: char)
    requires AllDigits(s) && IsDigit(d)
    ensures AllDigits(s + [d])
    ensures DecimalValue(s + [d]) == 10 * DecimalValue(s) + DigitValue(d)
    decreases |s|
  {
    if |s| > 0 {
      assert (s + [d])[1..] == s[1..] + [d];
      DecimalValueAppend(s[1..], d);
      var c, p := DigitValue(s[0]), Pow10(|s| - 1);
      var v, e := DecimalValue(s[1..]), DigitValue(d);
      assert (s + [d])[0] == s[0] && Pow10(|s|) == 10 * p;
      DecimalValueHead(s + [d]);
      DecimalValueHead(s);
      ShiftDigit(c, p, v, e);
    } else {
      assert s + [d] == [d];
    }
  }

  /** One step of `DecimalValue`: the leading digit's weight plus the rest. */
  lemma DecimalValueHead(s: string)
    requires AllDigits(s) && |s| > 0
    ensures DecimalValue(s) == DigitValue(s[0]) * Pow10(|s| - 1) + DecimalValue(s[1..])
  {
  }

  lemma ShiftDigit(c: nat, p: nat, v: nat, e: nat)
    ensures c * (10 * p) + (10 * v + e) == 10 * (c * p + v) + e
  {
    assert c * (10 * p) == 10 * (c * p);
  }
}
