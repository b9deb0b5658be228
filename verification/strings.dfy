/** The JavaScript string operations the storefront relies on: `trim`,
    `toLowerCase`, `includes`, number-to-decimal conversion and the global
    `parseInt` (with no radix argument). */
module Strings {
  import opened Common

  /** ECMAScript WhiteSpace and LineTerminator code points: what `trim` removes
      and what `parseInt` skips before the number. */
  predicate IsWhitespace(c: char)
  {
    || c == ' ' || c == '\t' || c == '\n' || c == '\r'
    || c == '\U{000B}' || c == '\U{000C}' || c == '\U{00A0}' || c == '\U{FEFF}'
    || c == '\U{1680}' || ('\U{2000}' <= c <= '\U{200A}')
    || c == '\U{2028}' || c == '\U{2029}' || c == '\U{202F}' || c == '\U{205F}' || c == '\U{3000}'
  }

  /** `s.trimStart()`: the suffix of `s` left once leading whitespace is removed. */
  function TrimStart(s: string): (r: string)
    ensures |r| <= |s| && r == s[|s| - |r|..]
    ensures forall i :: 0 <= i < |s| - |r| ==> IsWhitespace(s[i])
    ensures r == [] || !IsWhitespace(r[0])
    decreases |s|
  {
    if s != [] && IsWhitespace(s[0]) then TrimStart(s[1..]) else s
  }

  /** `s.trimEnd()`: the prefix of `s` left once trailing whitespace is removed. */
  function TrimEnd(s: string): (r: string)
    ensures |r| <= |s| && r == s[..|r|]
    ensures forall i :: |r| <= i < |s| ==> IsWhitespace(s[i])
    ensures r == [] || !IsWhitespace(r[|r| - 1])
    decreases |s|
  {
    if s != [] && IsWhitespace(s[|s| - 1]) then TrimEnd(s[..|s| - 1]) else s
  }

  /** `r` is the block of `s` at offset `k`, and everything before and after
      that block is whitespace. */
  predicate WhitespaceAround(s: string, r: string, k: int)
  {
    && 0 <= k <= |s| - |r| && r == s[k..k + |r|]
    && (forall i :: 0 <= i < k ==> IsWhitespace(s[i]))
    && (forall i :: k + |r| <= i < |s| ==> IsWhitespace(s[i]))
  }

  /** `s.trim()`: a block of `s` that neither starts nor ends with whitespace,
      everything before and after it being whitespace. */
  function Trim(s: string): (r: string)
    ensures exists k :: WhitespaceAround(s, r, k)
    ensures r == [] || (!IsWhitespace(r[0]) && !IsWhitespace(r[|r| - 1]))
  {
    BlockAround(s, TrimStart(s), TrimEnd(TrimStart(s)));
    TrimEnd(TrimStart(s))
  }

  /** A suffix after leading whitespace, cut before trailing whitespace,
      leaves a block with whitespace around it. */
  lemma BlockAround(s: string, t: string, r: string)
    requires |t| <= |s| && t == s[|s| - |t|..]
    requires forall i :: 0 <= i < |s| - |t| ==> IsWhitespace(s[i])
    requires |r| <= |t| && r == t[..|r|]
    requires forall i :: |r| <= i < |t| ==> IsWhitespace(t[i])
    ensures WhitespaceAround(s, r, |s| - |t|)
  {
    var k := |s| - |t|;
    PrefixOfSuffix(s, k, r);
    forall i | k + |r| <= i < |s|
      ensures IsWhitespace(s[i])
    {
      assert s[i] == t[i - k];
    }
  }

  /** Every character is whitespace (the empty string included). */
  predicate Blank(s: string)
  {
    forall i :: 0 <= i < |s| ==> IsWhitespace(s[i])
  }

  /** A string is blank after `trim` exactly when every character is whitespace. */
  lemma TrimEmptyIffBlank(s: string)
    ensures Trim(s) == "" <==> Blank(s)
  {
    var t := TrimStart(s);
    if t != [] {
      assert s[|s| - |t|] == t[0];
    }
  }

  /** `toLowerCase` on one character; only ASCII letters change. */
  function LowerChar(c: char): char
  {
    if 'A' <= c <= 'Z' then (c as int + 32) as char else c
  }

  /** `s.toLowerCase()`, restricted to ASCII case mapping. */
  function Lower(s: string): (r: string)
    ensures |r| == |s|
    ensures forall i :: 0 <= i < |s| ==> r[i] == LowerChar(s[i])
    ensures forall i :: 0 <= i < |r| ==> !('A' <= r[i] <= 'Z')
  {
    seq(|s|, i requires 0 <= i < |s| => LowerChar(s[i]))
  }

  /** Lower-casing twice is lower-casing once. */
  lemma LowerIdempotent(s: string)
    ensures Lower(Lower(s)) == Lower(s)
  {
  }

  /** `s.includes(t)`: `t` occurs in `s` as a contiguous block. */
  predicate Contains(s: string, t: string)
    decreases |s|
  {
    t <= s || (s != [] && Contains(s[1..], t))
  }

  /** `t` is contained in `s` exactly when it sits at some offset of `s`. */
  lemma {:induction false} ContainsAt(s: string, t: string)
    ensures Contains(s, t) <==> exists k :: 0 <= k <= |s| && t <= s[k..]
    decreases |s|
  {
    if t <= s {
      assert s[0..] == s;
    } else if s == [] {
    } else {
      ContainsAt(s[1..], t);
      if Contains(s[1..], t) {
        var k :| 0 <= k <= |s[1..]| && t <= s[1..][k..];
        assert s[1..][k..] == s[k + 1..];
      }
      if exists k :: 0 <= k <= |s| && t <= s[k..] {
        var k :| 0 <= k <= |s| && t <= s[k..];
        assert k != 0 by { assert s[0..] == s; }
        assert s[1..][k - 1..] == s[k..];
      }
    }
  }

  // ---- decimal rendering -------------------------------------------------

  predicate IsDecDigit(c: char)
  {
    '0' <= c <= '9'
  }

  function DigitChar(d: nat): (c: char)
    requires d < 10
    ensures IsDecDigit(c)
  {
    (48 + d) as char
  }

  /** `n.toString()` for a non-negative integer: its decimal digits, most
      significant first, with no leading zero. */
  function ShowNat(n: nat): (s: string)
    ensures |s| >= 1
    ensures forall i :: 0 <= i < |s| ==> IsDecDigit(s[i])
    ensures s[0] == '0' ==> n == 0
    decreases n
  {
    if n < 10 then [DigitChar(n)] else ShowNat(n / 10) + [DigitChar(n % 10)]
  }

  /** `n.toString()` for any integer (as used in `${order.id}`). */
  function ShowInt(n: int): (s: string)
    ensures |s| >= 1
    ensures n < 0 <==> s[0] == '-'
  {
    if n < 0 then "-" + ShowNat(-n) else ShowNat(n)
  }

  // ---- parseInt ---------------------------------------------------------

  /** A digit of the given radix (10 or 16), in either letter case. */
  predicate IsRadixDigit(c: char, radix: nat)
  {
    IsDecDigit(c) || (radix == 16 && (('a' <= c <= 'f') || ('A' <= c <= 'F')))
  }

  function DigitValue(c: char, radix: nat): (d: nat)
    requires IsRadixDigit(c, radix)
    ensures d < if radix == 16 then 16 else 10
  {
    if IsDecDigit(c) then c as nat - 48
    else if 'a' <= c <= 'f' then c as nat - 87
    else c as nat - 55
  }

  /** The longest prefix of `s` made of digits of `radix`. */
  function DigitRun(s: string, radix: nat): (r: string)
    ensures r <= s
    ensures forall i :: 0 <= i < |r| ==> IsRadixDigit(r[i], radix)
    ensures |r| < |s| ==> !IsRadixDigit(s[|r|], radix)
    decreases |s|
  {
    if s == [] || !IsRadixDigit(s[0], radix) then []
    else [s[0]] + DigitRun(s[1..], radix)
  }

  /** The number a run of digits denotes, read most significant first. */
  function DigitsValue(ds: string, radix: nat): nat
    requires forall i :: 0 <= i < |ds| ==> IsRadixDigit(ds[i], radix)
    decreases |ds|
  {
    if ds == [] then 0
    else DigitsValue(ds[..|ds| - 1], radix) * radix + DigitValue(ds[|ds| - 1], radix)
  }

  /** The radix `parseInt` uses once the sign is gone: 16 after a `0x`/`0X`
      prefix (which it then skips), 10 otherwise. */
  function RadixOf(u: string): (r: (nat, string))
    ensures r.0 == 10 ==> r.1 == u
    ensures r.0 == 16 ==> |u| >= 2 && r.1 == u[2..]
  {
    if |u| >= 2 && u[0] == '0' && (u[1] == 'x' || u[1] == 'X') then (16, u[2..]) else (10, u)
  }

  /** `parseInt` on the text after the sign: the value of the longest run of
      digits, or None (`NaN`) when there is none. */
  function ParseMagnitude(u: string): Option<nat>
  {
    var (radix, v) := RadixOf(u);
    var digits := DigitRun(v, radix);
    if digits == [] then None else Some(DigitsValue(digits, radix))
  }

  /** The global `parseInt(s)` with no radix: leading whitespace is skipped, an
      optional sign read, a `0x` prefix selects hexadecimal, and the longest run
      of digits is converted; no digits at all gives `NaN` (None). */
  function ParseInt(s: string): Option<int>
  {
    ParseSigned(TrimStart(s))
  }

  /** `parseInt` once leading whitespace is gone: an optional sign, then the
      magnitude, negated after a `-`. */
  function ParseSigned(t: string): Option<int>
  {
    var u := if |t| > 0 && (t[0] == '-' || t[0] == '+') then t[1..] else t;
    match ParseMagnitude(u)
    case None => None
    case Some(m) => Some(if |t| > 0 && t[0] == '-' then -(m as int) else m as int)
  }

  /** `parseInt` gives `NaN` for text without a decimal digit, and a negative
      number only for text with a minus sign. */
  lemma ParseIntNeedsDigit(s: string)
    ensures ParseInt(s).Some? ==> exists i :: 0 <= i < |s| && IsDecDigit(s[i])
    ensures ParseInt(s).Some? && ParseInt(s).value < 0 ==> exists i :: 0 <= i < |s| && s[i] == '-'
  {
    var t := TrimStart(s);
    var u := if |t| > 0 && (t[0] == '-' || t[0] == '+') then t[1..] else t;
    MagnitudeLeadsWithDigit(u);
    if ParseInt(s).Some? {
      assert IsDecDigit(s[|s| - |u|]);
      if ParseInt(s).value < 0 {
        assert s[|s| - |t|] == '-';
      }
    }
  }

  /** A magnitude is read only from text that starts with a decimal digit
      (`0` of a `0x` prefix included). */
  lemma MagnitudeLeadsWithDigit(u: string)
    ensures ParseMagnitude(u).Some? ==> |u| > 0 && IsDecDigit(u[0])
  {
    var (radix, v) := RadixOf(u);
    if radix == 10 && DigitRun(v, radix) != [] {
      assert DigitRun(v, radix)[0] == u[0];
    }
  }

  /** Reading back the decimal digits of `n` gives `n`. */
  lemma {:induction false} DigitsValueOfShow(n: nat)
    ensures DigitsValue(ShowNat(n), 10) == n
    decreases n
  {
    var s := ShowNat(n);
    if n >= 10 {
      DigitsValueOfShow(n / 10);
      assert s[..|s| - 1] == ShowNat(n / 10);
    }
  }

  /** Text that does not start with whitespace is left alone by `trimStart`. */
  lemma TrimStartKeeps(s: string)
    requires s != [] && !IsWhitespace(s[0])
    ensures TrimStart(s) == s
  {
  }

  /** A run of digits followed by a non-digit (or nothing) is the longest
      digit prefix. */
  lemma {:induction false} DigitRunPrefix(s: string, tail: string, radix: nat)
    requires forall i :: 0 <= i < |s| ==> IsRadixDigit(s[i], radix)
    requires tail == [] || !IsRadixDigit(tail[0], radix)
    ensures DigitRun(s + tail, radix) == s
    decreases |s|
  {
    if s == [] {
      assert s + tail == tail;
    } else {
      assert (s + tail)[1..] == s[1..] + tail;
      DigitRunPrefix(s[1..], tail, radix);
    }
  }

  /** What may follow a number without being read as part of it: nothing, or
      a character that is neither a digit nor the `x` of a `0x` prefix. */
  predicate EndsNumber(tail: string)
  {
    tail == [] || (!IsDecDigit(tail[0]) && tail[0] != 'x' && tail[0] != 'X')
  }

  /** The decimal text of a non-negative integer, followed by text that ends
      the number, read as a magnitude. */
  lemma MagnitudeOfShow(n: nat, tail: string)
    requires EndsNumber(tail)
    ensures ParseMagnitude(ShowNat(n) + tail) == Some(n)
  {
    var s := ShowNat(n);
    assert RadixOf(s + tail) == (10, s + tail);
    assert forall i :: 0 <= i < |s| ==> IsRadixDigit(s[i], 10);
    DigitRunPrefix(s, tail, 10);
    DigitsValueOfShow(n);
  }

  /** `parseInt` reads an integer's decimal text back, whatever non-numeric
      text follows it: `parseInt(n + ' from …')` is `n`. */
  lemma ParseShowIntThen(n: int, tail: string)
    requires EndsNumber(tail)
    ensures ParseInt(ShowInt(n) + tail) == Some(n)
  {
    var s := ShowInt(n) + tail;
    if n < 0 {
      NegativeOfShow(-n, tail);
    } else {
      SignedOfShow(n, tail);
    }
    ShowIntStartsSolid(n, tail);
    TrimStartKeeps(s);
  }

  /** An integer's decimal text starts with `-` or a digit, never whitespace. */
  lemma ShowIntStartsSolid(n: int, tail: string)
    ensures ShowInt(n) + tail != [] && !IsWhitespace((ShowInt(n) + tail)[0])
  {
    var s := ShowInt(n) + tail;
    if n < 0 {
      assert s[0] == '-';
    } else {
      assert IsDecDigit(s[0]);
    }
  }

  /** The decimal text of a non-negative integer, then text that ends the
      number, read after the whitespace. */
  lemma SignedOfShow(m: nat, tail: string)
    requires EndsNumber(tail)
    ensures ParseSigned(ShowNat(m) + tail) == Some(m)
  {
    var s := ShowNat(m) + tail;
    assert IsDecDigit(s[0]);
    MagnitudeOfShow(m, tail);
  }

  /** A minus sign, then the decimal text of a positive integer, then text
      that ends the number, read after the whitespace. */
  lemma NegativeOfShow(m: nat, tail: string)
    requires m > 0 && EndsNumber(tail)
    ensures ParseSigned(ShowInt(-(m as int)) + tail) == Some(-(m as int))
  {
    var u := ShowNat(m) + tail;
    MagnitudeOfShow(m, tail);
    SignedOfMinus(u, m);
    assert ShowInt(-(m as int)) + tail == "-" + u;
  }

  /** A minus sign in front of a magnitude negates it. */
  lemma SignedOfMinus(u: string, m: nat)
    requires ParseMagnitude(u) == Some(m)
    ensures ParseSigned("-" + u) == Some(-(m as int))
  {
    assert ("-" + u)[1..] == u;
  }

  /** The decimal text of a non-negative integer parses back to it: what
      `currentTime.toString()` stores, `parseInt` recovers. */
  lemma ParseShowRoundTrip(n: nat)
    ensures ParseInt(ShowNat(n)) == Some(n)
  {
    var s := ShowNat(n);
    assert IsDecDigit(s[0]);
    assert s + [] == s;
    TrimStartKeeps(s);
    MagnitudeOfShow(n, []);
  }
}
