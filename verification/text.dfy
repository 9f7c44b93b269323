/** The string operations the platform relies on, as Python defines them:
    `str.strip()`, `str.startswith`, `str.lower()` on the letters that matter
    here, the text after the last dot, and `int()` applied to a form value. */
module Text {
  import opened Basics

  /** Python's `str.isspace()`: the Unicode whitespace characters. */
  predicate IsSpace(c: char)
  {
    || c == ' ' || '\t' <= c <= '\r' || '\U{1C}' <= c <= '\U{1F}' || c == '\U{85}' || c == '\U{A0}'
    || c == '\U{1680}' || '\U{2000}' <= c <= '\U{200A}' || c == '\U{2028}' || c == '\U{2029}'
    || c == '\U{202F}' || c == '\U{205F}' || c == '\U{3000}'
  }

  /** The whitespace `int()` skips around a number: the six ASCII
      whitespace characters, and any non-ASCII character `str.isspace()`
      accepts. The separators U+001C..U+001F, which `str.strip()` removes,
      are not among them: `int()` rejects a value that contains one. */
  predicate IsIntSpace(c: char)
  {
    c == ' ' || '\t' <= c <= '\r' || (c as int >= 128 && IsSpace(c))
  }

  /** The two whitespace sets: the one `str.strip()` removes and the one
      `int()` skips. */
  datatype Spaces = StrSpaces | IntSpaces

  predicate InSpaces(c: char, ws: Spaces)
  {
    match ws
    case StrSpaces => IsSpace(c)
    case IntSpaces => IsIntSpace(c)
  }

  /** Every character of `s` is whitespace of the set `ws`. */
  predicate AllSpace(s: string, ws: Spaces)
  {
    forall i :: 0 <= i < |s| ==> InSpaces(s[i], ws)
  }

  /** The suffix left after dropping leading `ws` characters. */
  function TrimLeft(s: string, ws: Spaces): (r: string)
    ensures |r| <= |s| && r == s[|s| - |r|..]
    ensures forall i :: 0 <= i < |s| - |r| ==> InSpaces(s[i], ws)
    ensures r != [] ==> !InSpaces(r[0], ws)
  {
    if s != [] && InSpaces(s[0], ws) then
      TrimLeft(s[1..], ws)
    else s
  }

  /** The prefix left after dropping trailing `ws` characters. */
  function TrimRight(s: string, ws: Spaces): (r: string)
    ensures |r| <= |s| && r == s[..|r|]
    ensures forall i :: |r| <= i < |s| ==> InSpaces(s[i], ws)
    ensures r != [] ==> !InSpaces(r[|r| - 1], ws)
  {
    if s != [] && InSpaces(s[|s| - 1], ws) then
      TrimRight(s[..|s| - 1], ws)
    else s
  }

  /** `s.strip()`. */
  function Strip(s: string): string
  {
    TrimRight(TrimLeft(s, StrSpaces), StrSpaces)
  }

  /** The text `int()` reads its number from: the value without the
      whitespace it skips at either end. */
  function IntStrip(s: string): string
  {
    TrimRight(TrimLeft(s, IntSpaces), IntSpaces)
  }

  /** A value is blank after stripping exactly when it is all whitespace,
      so `url and url.strip()` holds of a non-empty, non-blank string. */
  lemma StripEmptyIff(s: string)
    ensures Strip(s) == [] <==> AllSpace(s, StrSpaces)
  {
    var l := TrimLeft(s, StrSpaces);
    if Strip(s) == [] {
      assert l == [];
      assert s[..|s|] == s;
    }
    if AllSpace(s, StrSpaces) {
      TrimLeftAllSpace(s, StrSpaces);
    }
  }

  lemma {:induction false} TrimLeftAllSpace(s: string, ws: Spaces)
    requires AllSpace(s, ws)
    ensures TrimLeft(s, ws) == []
  {
    if s != [] {
      TrimLeftAllSpace(s[1..], ws);
    }
  }

  /** A string without whitespace at either end is left as it is. */
  lemma TrimUnchanged(s: string, ws: Spaces)
    requires s != [] && !InSpaces(s[0], ws) && !InSpaces(s[|s| - 1], ws)
    ensures TrimRight(TrimLeft(s, ws), ws) == s
  {
    assert TrimLeft(s, ws) == s;
  }

  /** Stripping leaves no whitespace at either end, so it is idempotent. */
  lemma StripIdempotent(s: string)
    ensures Strip(Strip(s)) == Strip(s)
  {
    var t := Strip(s);
    if t != [] {
      var l := TrimLeft(t, StrSpaces);
      assert l == t;
      assert TrimRight(l, StrSpaces) == t;
    }
  }

  /** `s.startswith(prefix)`. */
  predicate StartsWith(s: string, prefix: string)
  {
    |prefix| <= |s| && s[..|prefix|] == prefix
  }

  /** `str.lower()` on A-Z. No other character lowercases into a string
      that one of the platform's file extensions could match. */
  function LowerChar(c: char): char
  {
    if 'A' <= c <= 'Z' then (c as int - 'A' as int + 'a' as int) as char else c
  }

  /** `s.lower()`. The ensures only unfolds the comprehension for the
      proofs that use it. */
  function Lower(s: string): (r: string)
    ensures |r| == |s|
    ensures forall i :: 0 <= i < |s| ==> r[i] == LowerChar(s[i])
  {
    seq(|s|, i requires 0 <= i < |s| => LowerChar(s[i]))
  }

  /** The position of the last '.', or None when there is none. */
  function LastDot(s: string): (r: Option<nat>)
    ensures r.None? <==> '.' !in s
    ensures r.Some? ==> r.value < |s| && s[r.value] == '.' && '.' !in s[r.value + 1..]
  {
    if s == [] then None
    else if s[|s| - 1] == '.' then Some(|s| - 1)
    else
      var r := LastDot(s[..|s| - 1]);
      assert r.Some? ==> s[r.value + 1..] == s[..|s| - 1][r.value + 1..] + [s[|s| - 1]];
      assert r.None? ==> s == s[..|s| - 1] + [s[|s| - 1]];
      r
  }

  predicate IsDigit(c: char)
  {
    '0' <= c <= '9'
  }

  /** Digits as `int()` accepts them: ASCII digits, with single underscores
      allowed between two digits. */
  predicate DigitString(d: string)
  {
    && d != []
    && IsDigit(d[0]) && IsDigit(d[|d| - 1])
    && (forall i :: 0 <= i < |d| ==> IsDigit(d[i]) || d[i] == '_')
    && (forall i :: 0 <= i < |d| - 1 && d[i] == '_' ==> d[i + 1] != '_')
  }

  /** The decimal value of the digits, underscores ignored. */
  function DigitsValue(d: string): nat
    requires forall i :: 0 <= i < |d| ==> IsDigit(d[i]) || d[i] == '_'
  {
    if d == [] then 0
    else if d[|d| - 1] == '_' then DigitsValue(d[..|d| - 1])
    else
      assert IsDigit(d[|d| - 1]);
      DigitsValue(d[..|d| - 1]) * 10 + (d[|d| - 1] as int - '0' as int)
  }

  /** CPython's default limit on the decimal digits that `int()` reads
      from a string and `str()` writes (`sys.int_info.default_max_str_digits`). */
  const MaxStrDigits: nat := 4300

  /** The number of digits in `d`; underscores do not count. */
  function DigitCount(d: string): nat
  {
    |set i | 0 <= i < |d| && d[i] != '_'|
  }

  /** Python's `int(text)` on a string: whitespace it skips, an optional
      sign, at most `MaxStrDigits` digits, whitespace it skips; None stands
      for the ValueError it raises. */
  function ParseInt(text: string): (r: Option<int>)
    ensures r.Some? ==> IntStrip(text) != []
  {
    var t := IntStrip(text);
    if t == [] then None
    else
      var signed := t[0] == '-' || t[0] == '+';
      var digits := if signed then t[1..] else t;
      if !DigitString(digits) || DigitCount(digits) > MaxStrDigits then None
      else if t[0] == '-' then Some(0 - DigitsValue(digits))
      else Some(DigitsValue(digits))
  }

  /** `str(n)` for a natural number: its shortest decimal digits. */
  function ShowNat(n: nat): (r: string)
    ensures r != [] && forall i :: 0 <= i < |r| ==> IsDigit(r[i])
  {
    var last := ['0' + (n % 10) as char];
    if n < 10 then last else ShowNat(n / 10) + last
  }

  /** `str(n)`. */
  function Show(n: int): string
  {
    if n < 0 then ['-'] + ShowNat(-n) else ShowNat(n)
  }

  /** The number of digits `str(n)` writes, the sign not counted. */
  function ShownDigits(n: int): nat
  {
    |ShowNat(if n < 0 then -n else n)|
  }

  function Pow10(k: nat): (p: nat)
    ensures p >= 1
  {
    if k == 0 then 1 else 10 * Pow10(k - 1)
  }

  lemma {:induction false} Pow10Add(a: nat, b: nat)
    ensures Pow10(a + b) == Pow10(a) * Pow10(b)
  {
    if b > 0 {
      Pow10Add(a, b - 1);
    }
  }

  /** A natural number below 10^k is written with at most k digits. */
  lemma {:induction false} ShowNatLength(n: nat, k: nat)
    requires 1 <= k && n < Pow10(k)
    ensures |ShowNat(n)| <= k
  {
    if n >= 10 {
      assert n / 10 < Pow10(k - 1);
      ShowNatLength(n / 10, k - 1);
    }
  }

  /** Every value a 64-bit SQLite INTEGER column holds is written with at
      most 19 digits, well within the digit limit. */
  lemma StoredIntegersShown(n: int)
    requires -0x8000_0000_0000_0000 <= n < 0x8000_0000_0000_0000
    ensures ShownDigits(n) <= 19 <= MaxStrDigits
  {
    assert Pow10(3) == 1000;
    Pow10Add(3, 3);
    Pow10Add(6, 6);
    Pow10Add(12, 6);
    Pow10Add(18, 1);
    ShowNatLength(if n < 0 then -n else n, 19);
  }

  /** Without underscores every character is a counted digit. */
  lemma {:induction false} DigitCountAll(d: string)
    requires forall i :: 0 <= i < |d| ==> IsDigit(d[i])
    ensures DigitCount(d) == |d|
  {
    if d != [] {
      var init := d[..|d| - 1];
      assert (set i | 0 <= i < |d| && d[i] != '_')
          == (set i | 0 <= i < |init| && init[i] != '_') + {|d| - 1};
      DigitCountAll(init);
    }
  }

  lemma {:induction false} ShowNatValue(n: nat)
    ensures DigitsValue(ShowNat(n)) == n
  {
    var s := ShowNat(n);
    if n >= 10 {
      ShowNatValue(n / 10);
      assert s[..|s| - 1] == ShowNat(n / 10);
    }
  }

  /** The rendering of a natural number is a digit string of that value. */
  lemma ShowNatDigits(n: nat)
    ensures DigitString(ShowNat(n)) && DigitsValue(ShowNat(n)) == n
    ensures DigitCount(ShowNat(n)) == |ShowNat(n)|
  {
    ShowNatValue(n);
    DigitCountAll(ShowNat(n));
  }

  /** `int(str(n)) == n`: an integer that `str()` renders within the digit
      limit parses back to itself. */
  lemma ParseShow(n: int)
    requires ShownDigits(n) <= MaxStrDigits
    ensures ParseInt(Show(n)) == Some(n)
  {
    if n < 0 {
      var d := ShowNat(-n);
      ShowNatDigits(-n);
      ParseShowNegative(n, d);
    } else {
      ShowNatDigits(n);
      ParseDigits(ShowNat(n));
    }
  }

  lemma ParseShowNegative(n: int, d: string)
    requires n < 0 && DigitString(d) && DigitsValue(d) == -n && Show(n) == ['-'] + d
    requires DigitCount(d) <= MaxStrDigits
    ensures ParseInt(Show(n)) == Some(n)
  {
    ParseNegative(d);
  }

  /** A bare digit string parses to its value. */
  lemma ParseDigits(d: string)
    requires DigitString(d) && DigitCount(d) <= MaxStrDigits
    ensures ParseInt(d) == Some(DigitsValue(d))
  {
    DigitNotSpace(d[0]);
    DigitNotSpace(d[|d| - 1]);
    TrimUnchanged(d, IntSpaces);
    ParseDigitString(d, d);
  }

  /** A minus sign followed by a digit string parses to the negated value. */
  lemma ParseNegative(d: string)
    requires DigitString(d) && DigitCount(d) <= MaxStrDigits
    ensures ParseInt(['-'] + d) == Some(0 - DigitsValue(d))
  {
    var s := ['-'] + d;
    DigitNotSpace(d[|d| - 1]);
    assert s[|s| - 1] == d[|d| - 1] && s[1..] == d;
    ParseMinus(s, d);
  }

  lemma ParseMinus(s: string, d: string)
    requires DigitString(d) && DigitCount(d) <= MaxStrDigits
    requires s != [] && s[0] == '-' && s[1..] == d && !InSpaces(s[|s| - 1], IntSpaces)
    ensures ParseInt(s) == Some(0 - DigitsValue(d))
  {
    assert IntStrip(s) == s by {
      TrimUnchanged(s, IntSpaces);
    }
    ParseMinusStripped(s, d);
  }

  lemma ParseMinusStripped(s: string, d: string)
    requires DigitString(d) && DigitCount(d) <= MaxStrDigits
    requires IntStrip(s) == s && s != [] && s[0] == '-' && s[1..] == d
    ensures ParseInt(s) == Some(0 - DigitsValue(d))
  {
  }

  lemma DigitNotSpace(c: char)
    requires IsDigit(c)
    ensures !InSpaces(c, StrSpaces) && !InSpaces(c, IntSpaces)
  {
  }

  /** A value whose text, once `int()` has skipped its whitespace, is a
      digit string within the digit limit parses to the value of those
      digits. */
  lemma ParseDigitString(s: string, d: string)
    requires DigitString(d) && IntStrip(s) == d && DigitCount(d) <= MaxStrDigits
    ensures ParseInt(s) == Some(DigitsValue(d))
  {
  }

  /** A digit string beyond the digit limit is rejected, whatever its value:
      `int('1' * 4301)` raises. */
  lemma ParseTooManyDigits(s: string, d: string)
    requires DigitString(d) && IntStrip(s) == d && DigitCount(d) > MaxStrDigits
    ensures ParseInt(s).None?
  {
  }

  /** `int(str(n))` raises when `str(n)` has more than 4300 digits, for a
      negative n as for a positive one. */
  lemma ParseShowTooLong(n: int)
    requires ShownDigits(n) > MaxStrDigits
    ensures ParseInt(Show(n)).None?
  {
    var d := ShowNat(if n < 0 then -n else n);
    ShowNatDigits(if n < 0 then -n else n);
    DigitNotSpace(d[|d| - 1]);
    if n < 0 {
      var s := ['-'] + d;
      assert s[|s| - 1] == d[|d| - 1] && s[1..] == d;
      assert IntStrip(s) == s by {
        TrimUnchanged(s, IntSpaces);
      }
      ParseMinusTooMany(s, d);
    } else {
      DigitNotSpace(d[0]);
      TrimUnchanged(d, IntSpaces);
      ParseTooManyDigits(d, d);
    }
  }

  lemma ParseMinusTooMany(s: string, d: string)
    requires DigitString(d) && DigitCount(d) > MaxStrDigits
    requires IntStrip(s) == s && s != [] && s[0] == '-' && s[1..] == d
    ensures ParseInt(s).None?
  {
  }

  lemma IntStripPadded(d: string)
    requires DigitString(d)
    ensures IntStrip([' '] + d + ['\n']) == d
  {
    var padded := [' '] + d + ['\n'];
    var rest := d + ['\n'];
    DigitNotSpace(d[0]);
    DigitNotSpace(d[|d| - 1]);
    assert TrimLeft(padded, IntSpaces) == rest by {
      assert padded[0] == ' ' && padded[1..] == rest && rest[0] == d[0];
      TrimLeftStep(padded, IntSpaces);
      TrimLeftStops(rest, IntSpaces);
    }
    assert TrimRight(rest, IntSpaces) == d by {
      assert rest[|rest| - 1] == '\n' && rest[..|rest| - 1] == d;
      TrimRightStep(rest, IntSpaces);
      TrimUnchanged(d, IntSpaces);
    }
  }

  lemma TrimLeftStep(s: string, ws: Spaces)
    requires s != [] && InSpaces(s[0], ws)
    ensures TrimLeft(s, ws) == TrimLeft(s[1..], ws)
  {
  }

  lemma TrimLeftStops(s: string, ws: Spaces)
    requires s != [] && !InSpaces(s[0], ws)
    ensures TrimLeft(s, ws) == s
  {
  }

  lemma TrimRightStep(s: string, ws: Spaces)
    requires s != [] && InSpaces(s[|s| - 1], ws)
    ensures TrimRight(s, ws) == TrimRight(s[..|s| - 1], ws)
  {
  }

  /** `int()` skips the whitespace around a number: `int(' 7\n') == 7`. */
  lemma IntSkipsPadding(d: string)
    requires DigitString(d) && DigitCount(d) <= MaxStrDigits
    ensures ParseInt([' '] + d + ['\n']) == Some(DigitsValue(d))
  {
    IntStripPadded(d);
    ParseDigitString([' '] + d + ['\n'], d);
  }

  /** `str.strip()` removes a leading U+001C: `'\x1c7'.strip() == '7'`. */
  lemma StripSeparated(d: string)
    requires DigitString(d)
    ensures Strip(['\U{1C}'] + d) == d
  {
    var sep := ['\U{1C}'] + d;
    DigitNotSpace(d[0]);
    DigitNotSpace(d[|d| - 1]);
    assert sep[1..] == d;
    assert TrimLeft(sep, StrSpaces) == d;
    TrimUnchanged(d, StrSpaces);
  }

  /** A value that does not start with whitespace `int()` skips, a sign or
      a digit is rejected. */
  lemma ParseRejectsNonDigit(s: string)
    requires s != [] && !InSpaces(s[0], IntSpaces) && !InSpaces(s[|s| - 1], IntSpaces)
    requires !IsDigit(s[0]) && s[0] != '-' && s[0] != '+'
    ensures ParseInt(s).None?
  {
    TrimUnchanged(s, IntSpaces);
  }

  /** `int()` skips less than `str.strip()` removes: unlike the strip of
      `StripSeparated`, `int('\x1c7')` raises. */
  lemma IntRejectsSeparator(d: string)
    requires DigitString(d)
    ensures ParseInt(['\U{1C}'] + d).None?
  {
    var sep := ['\U{1C}'] + d;
    DigitNotSpace(d[|d| - 1]);
    assert sep[|sep| - 1] == d[|d| - 1];
    ParseRejectsNonDigit(sep);
  }
}
