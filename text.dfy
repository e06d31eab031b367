/**
 * String helpers shared by every part of the model: the whitespace set of
 * JavaScript's `trim` and regular-expression `\s`, decimal digits, `join`,
 * and single-character `replace`.
 */
module Text {

  /** ECMAScript WhiteSpace and LineTerminator code points (Unicode 15 space separators). */
  predicate IsWs(c: char) {
    c == '\t' || c == '\n' || c == '\U{B}' || c == '\U{C}' || c == '\r' || c == ' '
    || c == '\U{A0}' || c == '\U{1680}' || ('\U{2000}' <= c <= '\U{200A}')
    || c == '\U{2028}' || c == '\U{2029}' || c == '\U{202F}' || c == '\U{205F}'
    || c == '\U{3000}' || c == '\U{FEFF}'
  }

  predicate AllWs(s: string) {
    forall i :: 0 <= i < |s| ==> IsWs(s[i])
  }

  predicate NoWs(s: string) {
    forall i :: 0 <= i < |s| ==> !IsWs(s[i])
  }

  /** A string that `trim` leaves alone. */
  predicate Trimmed(s: string) {
    s == [] || (!IsWs(s[0]) && !IsWs(s[|s| - 1]))
  }

  /** The number of whitespace characters at the start of `s`. */
  function LeadingWs(s: string): (k: nat)
    ensures k <= |s| && AllWs(s[..k])
    ensures k < |s| ==> !IsWs(s[k])
  {
    if s != [] && IsWs(s[0]) then
      var k := 1 + LeadingWs(s[1..]);
      assert s[..k] == [s[0]] + s[1..][..k - 1];
      k
    else 0
  }

  /** The number of whitespace characters at the end of `s`. */
  function TrailingWs(s: string): (k: nat)
    ensures k <= |s| && AllWs(s[|s| - k..])
    ensures k < |s| ==> !IsWs(s[|s| - 1 - k])
  {
    if s != [] && IsWs(s[|s| - 1]) then
      var k := 1 + TrailingWs(s[..|s| - 1]);
      assert s[|s| - k..] == s[..|s| - 1][|s| - k..] + [s[|s| - 1]];
      k
    else 0
  }

  /** Removes leading whitespace. */
  function TrimStart(s: string): (r: string)
    ensures r == [] || !IsWs(r[0])
  {
    s[LeadingWs(s)..]
  }

  /** Removes trailing whitespace. */
  function TrimEnd(s: string): (r: string)
    ensures r == [] || !IsWs(r[|r| - 1])
  {
    s[..|s| - TrailingWs(s)]
  }

  /** `String.prototype.trim`. */
  function Trim(s: string): (r: string)
    ensures Trimmed(r)
  {
    TrimEnd(TrimStart(s))
  }

  /** Trim removes only surrounding whitespace: the result is a slice of the input whose margins are blank. */
  /** `r` is `s[a..b]`, and what lies outside is whitespace. */
  predicate BlankMargins(s: string, r: string, a: int, b: int) {
    0 <= a <= b <= |s| && r == s[a..b] && AllWs(s[..a]) && AllWs(s[b..])
  }

  lemma TrimIsSlice(s: string)
    ensures exists a, b :: BlankMargins(s, Trim(s), a, b)
  {
    var a := LeadingWs(s);
    var t := s[a..];
    var k := TrailingWs(t);
    var b := |s| - k;
    assert TrimStart(s) == t;
    assert TrimEnd(t) == t[..|t| - k];
    assert t[..|t| - k] == s[a..b];
    assert s[b..] == t[|t| - k..];
    assert BlankMargins(s, Trim(s), a, b);
  }

  /** Trimming a trimmed string changes nothing; in particular `Trim` is idempotent. */
  lemma TrimOfTrimmed(s: string)
    requires Trimmed(s)
    ensures Trim(s) == s
  {
  }

  lemma TrimIdempotent(s: string)
    ensures Trim(Trim(s)) == Trim(s)
  {
    TrimOfTrimmed(Trim(s));
  }

  /** A string that is blank after trimming is made of whitespace only. */
  lemma TrimEmptyIffBlank(s: string)
    ensures Trim(s) == [] <==> AllWs(s)
  {
    if !AllWs(s) {
      var i :| 0 <= i < |s| && !IsWs(s[i]);
      var t := TrimStart(s);
      assert t != [] && !IsWs(t[0]);
    }
  }

  predicate IsDigit(c: char) {
    '0' <= c <= '9'
  }

  predicate AllDigits(s: string) {
    forall i :: 0 <= i < |s| ==> IsDigit(s[i])
  }

  function DigitValue(c: char): nat
    requires IsDigit(c)
  {
    c as int - '0' as int
  }

  function DigitChar(d: nat): (c: char)
    requires d < 10
    ensures IsDigit(c) && DigitValue(c) == d
  {
    ('0' as int + d) as char
  }

  function Pow10(k: nat): (p: nat)
    ensures p >= 1
  {
    if k == 0 then 1 else 10 * Pow10(k - 1)
  }

  lemma DivMod(a: nat, p: nat)
    requires p >= 1
    ensures a / p >= 0 && 0 <= a % p < p && a == (a / p) * p + a % p
  {
  }

  /** The number a string of decimal digits denotes, most significant digit first. */
  function DigitsValue(s: string): nat
    requires AllDigits(s)
  {
    if s == [] then 0 else DigitsValue(s[..|s| - 1]) * 10 + DigitValue(s[|s| - 1])
  }

  /** The digits of `n` with no leading zeros. */
  function NatDigits(n: nat): (s: string)
    ensures s != [] && AllDigits(s) && DigitsValue(s) == n
    ensures |s| > 1 ==> s[0] != '0'
  {
    if n < 10 then [DigitChar(n)]
    else
      var s := NatDigits(n / 10) + [DigitChar(n % 10)];
      assert s[..|s| - 1] == NatDigits(n / 10);
      s
  }

  function Zeros(k: nat): (s: string)
    ensures |s| == k && AllDigits(s)
  {
    if k == 0 then [] else Zeros(k - 1) + "0"
  }

  /** Left-pads a digit string with zeros to width `k`. */
  function PadLeft(s: string, k: nat): (r: string)
    requires AllDigits(s)
    ensures AllDigits(r) && |r| == if |s| < k then k else |s|
    ensures DigitsValue(r) == DigitsValue(s)
  {
    var r := Zeros(if |s| < k then k - |s| else 0) + s;
    DigitsConcat(Zeros(if |s| < k then k - |s| else 0), s);
    ZerosValue(if |s| < k then k - |s| else 0);
    r
  }

  lemma {:induction false} ZerosValue(k: nat)
    ensures DigitsValue(Zeros(k)) == 0
  {
    if k > 0 {
      ZerosValue(k - 1);
      assert Zeros(k)[..k - 1] == Zeros(k - 1);
    }
  }

  lemma AllDigitsAppend(a: string, b: string)
    requires AllDigits(a) && AllDigits(b)
    ensures AllDigits(a + b)
  {
  }

  /** Reading the concatenation of two digit strings: the left part is shifted by the right part's width. */
  lemma {:induction false} DigitsConcat(a: string, b: string)
    requires AllDigits(a) && AllDigits(b)
    ensures AllDigits(a + b)
    ensures DigitsValue(a + b) == DigitsValue(a) * Pow10(|b|) + DigitsValue(b)
  {
    if b == [] {
      assert a + b == a;
    } else {
      var b' := b[..|b| - 1];
      var d := DigitValue(b[|b| - 1]);
      DigitsConcat(a, b');
      assert (a + b)[..|a + b| - 1] == a + b';
      var l := DigitsValue(a + b');
      assert DigitsValue(a + b) == l * 10 + d;
      ShiftDigit(DigitsValue(a), Pow10(|b'|), DigitsValue(b'), d);
    }
  }

  lemma ShiftDigit(x: nat, p: nat, y: nat, d: nat)
    ensures (x * p + y) * 10 + d == x * (10 * p) + (y * 10 + d)
  {
  }

  lemma {:induction false} DigitsValueBound(s: string)
    requires AllDigits(s)
    ensures DigitsValue(s) < Pow10(|s|)
  {
    if s != [] {
      DigitsValueBound(s[..|s| - 1]);
    }
  }

  /** `parts.join(sep)`. */
  function Join(parts: seq<string>, sep: string): string {
    if parts == [] then ""
    else if |parts| == 1 then parts[0]
    else parts[0] + sep + Join(parts[1..], sep)
  }

  lemma JoinCons(p: string, parts: seq<string>, sep: string)
    requires parts != []
    ensures Join([p] + parts, sep) == p + sep + Join(parts, sep)
  {
    assert ([p] + parts)[1..] == parts;
  }

  /** `s.replace(/c/g, '')`. */
  function RemoveAll(s: string, c: char): (r: string)
    ensures c !in r
  {
    if s == [] then []
    else if s[0] == c then RemoveAll(s[1..], c)
    else [s[0]] + RemoveAll(s[1..], c)
  }

  /** Removing `c` keeps every other character. */
  lemma {:induction false} RemoveAllKeeps(s: string, c: char, d: char)
    requires d != c
    ensures d in RemoveAll(s, c) <==> d in s
  {
    if s != [] {
      RemoveAllKeeps(s[1..], c, d);
      assert d in s <==> d == s[0] || d in s[1..];
    }
  }

  /** Removing a character keeps a text free of whitespace. */
  lemma RemoveAllNoWs(s: string, c: char)
    requires NoWs(s)
    ensures NoWs(RemoveAll(s, c))
  {
    if s != [] {
      RemoveAllNoWs(s[1..], c);
    }
  }

  lemma RemoveAllAppend(a: string, b: string, c: char)
    ensures RemoveAll(a + b, c) == RemoveAll(a, c) + RemoveAll(b, c)
  {
    if a != [] {
      assert (a + b)[1..] == a[1..] + b;
      RemoveAllAppend(a[1..], b, c);
    } else {
      assert a + b == b;
    }
  }

  lemma RemoveAllAbsent(s: string, c: char)
    requires c !in s
    ensures RemoveAll(s, c) == s
  {
    if s != [] {
      RemoveAllAbsent(s[1..], c);
    }
  }

  /** `s.replace(/\s/g, '')`. */
  function RemoveWs(s: string): (r: string)
    ensures NoWs(r)
  {
    if s == [] then []
    else if IsWs(s[0]) then RemoveWs(s[1..])
    else [s[0]] + RemoveWs(s[1..])
  }

  lemma RemoveWsNoWs(s: string)
    requires NoWs(s)
    ensures RemoveWs(s) == s
  {
    if s != [] {
      RemoveWsNoWs(s[1..]);
    }
  }

  lemma RemoveWsAppend(a: string, b: string)
    ensures RemoveWs(a + b) == RemoveWs(a) + RemoveWs(b)
  {
    if a != [] {
      assert (a + b)[1..] == a[1..] + b;
      RemoveWsAppend(a[1..], b);
    } else {
      assert a + b == b;
    }
  }

  /** `s.replace(c, d)` with a one-character string pattern: only the first occurrence is replaced. */
  function ReplaceFirst(s: string, c: char, d: char): string {
    if s == [] then []
    else if s[0] == c then [d] + s[1..]
    else [s[0]] + ReplaceFirst(s[1..], c, d)
  }

  lemma ReplaceFirstAt(a: string, b: string, c: char, d: char)
    requires c !in a
    ensures ReplaceFirst(a + [c] + b, c, d) == a + [d] + b
  {
    if a != [] {
      assert (a + [c] + b)[1..] == a[1..] + [c] + b;
      ReplaceFirstAt(a[1..], b, c, d);
    }
  }

  /** Lower-casing of the ASCII letters only. */
  function AsciiLower(s: string): (r: string)
    ensures |r| == |s|
    ensures forall i :: 0 <= i < |s| ==> r[i] == LowerChar(s[i])
  {
    if s == [] then [] else [LowerChar(s[0])] + AsciiLower(s[1..])
  }

  function LowerChar(c: char): char {
    if 'A' <= c <= 'Z' then (c as int + 32) as char else c
  }
}
