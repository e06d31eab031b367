/**
 * Number handling of the export builder (extension/background.js):
 * `parseNumberLoose`, which reads dot-decimal and German-localised amounts,
 * `formatPrice`, which writes two decimals with a comma, and the
 * `String(number)` rendering that the CSV encoder applies to numeric cells.
 *
 * Numbers are exact reals. A JavaScript number is either finite (a real) or
 * one of NaN and the two infinities, which the code treats alike.
 */
module Numbers {
  import opened Wrappers
  import opened Text

  datatype JsNumber = Finite(value: real) | NotFinite

  /** The values `parseNumberLoose` may be handed. */
  datatype JsValue = Undefined | Null | Num(n: JsNumber) | Str(s: string)

  /** The exact number mantissa / 10^scale. */
  datatype Decimal = Decimal(mantissa: int, scale: nat) {
    function Value(): real {
      mantissa as real / Pow10(scale) as real
    }
  }

  function Abs(x: real): real {
    if x < 0.0 then -x else x
  }

  /** Position of the first `c` in `s`, or `|s|` when there is none. */
  function FirstIndex(s: string, c: char): (k: nat)
    ensures k <= |s| && c !in s[..k]
    ensures k < |s| ==> s[k] == c
  {
    if s == [] then 0
    else if s[0] == c then 0
    else
      var k := 1 + FirstIndex(s[1..], c);
      assert s[..k] == [s[0]] + s[1..][..k - 1];
      k
  }

  /** `Number` on an unsigned decimal: digits [. digits] or . digits. */
  function UnsignedDecimal(body: string): (r: Option<Decimal>)
    ensures r.Some? ==> r.value.mantissa >= 0
  {
    var dot := FirstIndex(body, '.');
    var ip := body[..dot];
    var fp := if dot < |body| then body[dot + 1..] else [];
    if AllDigits(ip) && AllDigits(fp) && |ip| + |fp| > 0 then
      AllDigitsAppend(ip, fp);
      Some(Decimal(DigitsValue(ip + fp), |fp|))
    else None
  }

  /**
   * `Number(s)` for a string without whitespace, restricted to the decimal
   * grammar  [+|-] digits [. digits]  |  [+|-] . digits ; the empty string
   * reads as 0, as `Number("")` does. Anything else gives None (NaN).
   */
  function DecimalLiteral(s: string): (r: Option<Decimal>)
    ensures r.Some? && s != [] && s[0] != '-' ==> r.value.mantissa >= 0
    ensures r.Some? && s != [] && s[0] == '-' ==> r.value.mantissa <= 0
  {
    if s == [] then Some(Decimal(0, 0))
    else if s[0] == '-' then
      match UnsignedDecimal(s[1..])
      case Some(d) => Some(Decimal(Signed(true, d.mantissa), d.scale))
      case None => None
    else if s[0] == '+' then UnsignedDecimal(s[1..])
    else UnsignedDecimal(s)
  }

  /**
   * The rewriting `parseNumberLoose` applies to a trimmed string before
   * `Number`: drop whitespace and euro signs; if a comma is left, drop every
   * dot and turn the first comma into the decimal point, which is then the
   * only dot left.
   */
  function Normalized(t: string): (n: string)
    ensures NoWs(n) && '€' !in n
    ensures ',' in RemoveAll(RemoveWs(t), '€') ==> multiset(n)['.'] == 1
    ensures var u := RemoveAll(RemoveWs(t), '€');
      && (',' !in u ==> n == u)
      && (',' in u ==>
            var v := RemoveAll(u, '.');
            var k := FirstIndex(v, ',');
            k < |v| && n == v[..k] + ['.'] + v[k + 1..])
  {
    var u := RemoveAll(RemoveWs(t), '€');
    RemoveAllNoWs(RemoveWs(t), '€');
    if ',' in u then
      var v := RemoveAll(u, '.');
      RemoveAllNoWs(u, '.');
      RemoveAllKeeps(u, '.', ',');
      RemoveAllKeeps(u, '.', '€');
      FirstCommaToDot(v);
      FirstCommaAt(v);
      ReplaceFirst(v, ',', '.')
    else u
  }

  /** Turning the first comma of dot-free text into a dot leaves exactly one dot. */
  lemma FirstCommaToDot(v: string)
    requires ',' in v && '.' !in v && NoWs(v) && '€' !in v
    ensures var n := ReplaceFirst(v, ',', '.'); NoWs(n) && '€' !in n && multiset(n)['.'] == 1
  {
    var k := FirstCommaSplit(v);
    var a, b := v[..k], v[k + 1..];
    assert v == a + [','] + b;
    SpliceDot(a, b);
  }

  /** A dot set between two parts without dots, whitespace or euro signs is the only dot. */
  lemma SpliceDot(a: string, b: string)
    requires NoWs(a + [','] + b) && '.' !in a + [','] + b && '€' !in a + [','] + b
    ensures var n := a + ['.'] + b; NoWs(n) && '€' !in n && multiset(n)['.'] == 1
  {
    var v, n := a + [','] + b, a + ['.'] + b;
    assert '.' !in a && '.' !in b && '€' !in a && '€' !in b;
    assert multiset(n) == multiset(a) + multiset(['.']) + multiset(b);
    forall i | 0 <= i < |n| ensures !IsWs(n[i]) {
      if i != |a| { assert n[i] == v[i]; }
    }
  }

  /** `replace(',', '.')` on text holding a comma changes the first comma only. */
  lemma FirstCommaSplit(v: string) returns (k: nat)
    requires ',' in v
    ensures k < |v| && v[k] == ','
    ensures ReplaceFirst(v, ',', '.') == v[..k] + ['.'] + v[k + 1..]
  {
    k := FirstIndex(v, ',');
    CommaAt(v, k);
  }

  /** The dot `replace(',', '.')` writes stands where the first comma stood. */
  lemma FirstCommaAt(v: string)
    requires ',' in v
    ensures var k := FirstIndex(v, ',');
      k < |v| && ReplaceFirst(v, ',', '.') == v[..k] + ['.'] + v[k + 1..]
  {
    CommaAt(v, FirstIndex(v, ','));
  }

  /** Replacing the first comma, found at `k`. */
  lemma CommaAt(v: string, k: nat)
    requires k < |v| && v[k] == ',' && ',' !in v[..k]
    ensures ReplaceFirst(v, ',', '.') == v[..k] + ['.'] + v[k + 1..]
  {
    assert v == v[..k] + [','] + v[k + 1..];
    ReplaceFirstAt(v[..k], v[k + 1..], ',', '.');
  }

  /** `parseNumberLoose` on a string, keeping the exact decimal that was read. */
  function LooseDecimal(s: string): (r: Option<Decimal>)
    ensures AllWs(s) ==> r == None
  {
    TrimEmptyIffBlank(s);
    var t := Trim(s);
    if t == [] then None else DecimalLiteral(Normalized(t))
  }

  /** `parseNumberLoose(v)`: a finite number, or None for null. */
  function ParseNumberLoose(v: JsValue): (r: Option<real>)
    ensures v.Undefined? || v.Null? ==> r == None
    ensures v.Num? && v.n.Finite? ==> r == Some(v.n.value)
    ensures v.Num? && v.n.NotFinite? ==> r == None
    ensures v.Str? && AllWs(v.s) ==> r == None
  {
    match v
    case Undefined => None
    case Null => None
    case Num(Finite(x)) => Some(x)
    // String(NaN) and String(±Infinity) are read back by Number as non-finite again.
    case Num(NotFinite) => None
    case Str(s) =>
      match LooseDecimal(s)
      case Some(d) => Some(d.Value())
      case None => None
  }

  function SignText(neg: bool): string {
    if neg then "-" else ""
  }

  function Signed(neg: bool, m: int): int {
    if neg then -m else m
  }

  /** `a` written with `k` fractional digits after `sep`; plain digits when `k` is 0. */
  function DecimalText(a: nat, k: nat, sep: char): string {
    if k == 0 then NatDigits(a)
    else
      var p := Pow10(k);
      DivMod(a, p);
      NatDigits(a / p) + [sep] + PadLeft(NatDigits(a % p), k)
  }

  /** The integer `n` that `toFixed(2)` picks for `x >= 0`: n / 100 nearest to x, the larger on a tie. */
  function Cents(x: real): (n: nat)
    requires x >= 0.0
    ensures n as real / 100.0 - x <= 0.005 && x - n as real / 100.0 < 0.005
  {
    (x * 100.0 + 0.5).Floor
  }

  /** The value `toFixed(2)` denotes for `x`: rounded to cents, halves away from zero. */
  function RoundToCents(x: real): real {
    var n := Cents(Abs(x)) as real / 100.0;
    if x < 0.0 then -n else n
  }

  /** `formatPrice(n)`: two decimals, comma separator, no thousands grouping. */
  function FormatPrice(n: JsNumber): (r: string)
    ensures r == [] <==> n.NotFinite?
  {
    match n
    case NotFinite => ""
    case Finite(x) => SignText(x < 0.0) + DecimalText(Cents(Abs(x)), 2, ',')
  }

  /** The same number with trailing fractional zeros dropped. */
  function Canonical(d: Decimal): (c: Decimal)
    ensures c.Value() == d.Value()
    ensures c.scale <= d.scale
    ensures c.scale > 0 ==> c.mantissa % 10 != 0
    decreases d.scale
  {
    if d.scale > 0 && d.mantissa % 10 == 0 then
      var c := Decimal(d.mantissa / 10, d.scale - 1);
      DropZeroValue(d.mantissa, d.scale);
      Canonical(c)
    else d
  }

  lemma DropZeroValue(m: int, k: nat)
    requires k > 0 && m % 10 == 0
    ensures Decimal(m / 10, k - 1).Value() == Decimal(m, k).Value()
  {
    var q := m / 10;
    var p := Pow10(k - 1) as real;
    assert m == q * 10;
    assert Pow10(k) as real == 10.0 * p;
    assert (q * 10) as real / (10.0 * p) == q as real / p;
  }

  /**
   * `String(x)` for the number `d` denotes: shortest decimal form, '.' as the
   * point. A minus sign leads exactly for negative numbers, and a whole number
   * is written without a point.
   */
  function NumberToString(d: Decimal): (s: string)
    ensures s != [] && (s[0] == '-' <==> d.Value() < 0.0)
    ensures '.' in s <==> Canonical(d).scale > 0
  {
    ValueSign(Canonical(d));
    DecimalString(Canonical(d))
  }

  /** The decimal `c` written out: its sign, then its digits with '.' before the last `c.scale` of them. */
  function DecimalString(c: Decimal): (s: string)
    ensures s != [] && (s[0] == '-' <==> c.mantissa < 0)
    ensures '.' in s <==> c.scale > 0
  {
    var a := if c.mantissa < 0 then -c.mantissa else c.mantissa;
    DecimalTextHead(a, c.scale, '.');
    SignText(c.mantissa < 0) + DecimalText(a, c.scale, '.')
  }

  /** Decimal text starts with a digit and holds the separator exactly when it has fractional digits. */
  lemma DecimalTextHead(a: nat, k: nat, sep: char)
    requires !IsDigit(sep)
    ensures var t := DecimalText(a, k, sep); t != [] && IsDigit(t[0]) && (sep in t <==> k > 0)
  {
    var t := DecimalText(a, k, sep);
    if k > 0 {
      var p := Pow10(k);
      DivMod(a, p);
      var ip := NatDigits(a / p);
      assert t[|ip|] == sep;
      assert t[0] == ip[0];
    }
  }

  lemma ValueSign(d: Decimal)
    ensures d.mantissa < 0 <==> d.Value() < 0.0
  {
    var p := Pow10(d.scale) as real;
    var m := d.mantissa as real;
    assert d.Value() * p == m;
    if d.Value() < 0.0 {
      assert d.Value() * p < 0.0;
    } else {
      assert d.Value() * p >= 0.0;
    }
  }

  // ---------------------------------------------------------------------
  // Reading back what was written

  lemma {:induction false} UnsignedReads(ip: string, fp: string, dotted: bool)
    requires AllDigits(ip) && AllDigits(fp) && |ip| + |fp| > 0
    requires !dotted ==> fp == []
    ensures AllDigits(ip + fp)
    ensures UnsignedDecimal(if dotted then ip + "." + fp else ip) == Some(Decimal(DigitsValue(ip + fp), |fp|))
  {
    AllDigitsAppend(ip, fp);
    var body := if dotted then ip + "." + fp else ip;
    var dot := FirstIndex(body, '.');
    assert '.' !in ip;
    if dotted {
      assert body[|ip|] == '.';
      assert dot == |ip|;
      assert body[..dot] == ip && body[dot + 1..] == fp;
    } else {
      assert dot == |ip| && body[..dot] == ip && ip + fp == ip;
    }
  }

  lemma SignedLiteral(neg: bool, body: string)
    requires body != [] && body[0] != '-' && body[0] != '+'
    ensures DecimalLiteral(SignText(neg) + body)
         == match UnsignedDecimal(body)
            case Some(d) => Some(Decimal(Signed(neg, d.mantissa), d.scale))
            case None => None
  {
    if neg {
      var s := "-" + body;
      assert s[0] == '-' && s[1..] == body;
    } else {
      assert "" + body == body;
    }
  }

  /** `Number` reads a signed digit string with an optional fraction exactly. */
  lemma {:induction false} DecimalLiteralReads(neg: bool, ip: string, fp: string, dotted: bool)
    requires AllDigits(ip) && AllDigits(fp) && |ip| + |fp| > 0
    requires !dotted ==> fp == []
    ensures AllDigits(ip + fp)
    ensures DecimalLiteral(SignText(neg) + (if dotted then ip + "." + fp else ip))
         == Some(Decimal(Signed(neg, DigitsValue(ip + fp)), |fp|))
  {
    var body := if dotted then ip + "." + fp else ip;
    assert body[0] != '-' && body[0] != '+' by {
      if ip != [] { assert body[0] == ip[0]; } else { assert body[0] == '.'; }
    }
    UnsignedReads(ip, fp, dotted);
    SignedLiteral(neg, body);
  }

  /** The characters `formatPrice` and `String(number)` emit. */
  predicate NumericChar(c: char) {
    IsDigit(c) || c == '-' || c == '.' || c == ','
  }

  predicate Numeric(s: string) {
    forall i :: 0 <= i < |s| ==> NumericChar(s[i])
  }

  /** Digits with minus signs: the pieces on either side of a decimal separator. */
  predicate Numeral(s: string) {
    forall i :: 0 <= i < |s| ==> IsDigit(s[i]) || s[i] == '-'
  }

  lemma SignedNumeral(neg: bool, ip: string)
    requires AllDigits(ip)
    ensures Numeral(SignText(neg) + ip)
  {
    var s := SignText(neg) + ip;
    forall i | 0 <= i < |s| ensures IsDigit(s[i]) || s[i] == '-' {
      if i >= |SignText(neg)| { assert s[i] == ip[i - |SignText(neg)|]; }
    }
  }

  /** Numeric text has no whitespace and no euro sign, so `trim` and the first removals keep it. */
  lemma NumericPlain(s: string)
    requires s != [] && Numeric(s)
    ensures Trim(s) == s && RemoveAll(RemoveWs(s), '€') == s
  {
    assert NoWs(s);
    assert '€' !in s;
    TrimOfTrimmed(s);
    RemoveWsNoWs(s);
    RemoveAllAbsent(s, '€');
  }

  lemma NormalizedNumeral(a: string)
    requires a != [] && Numeral(a)
    ensures Trim(a) == a && Normalized(a) == a
  {
    assert Numeric(a);
    NumericPlain(a);
    assert ',' !in a;
  }

  lemma JoinedNumeric(a: string, sep: char, b: string)
    requires Numeral(a) && Numeral(b) && (sep == ',' || sep == '.')
    ensures Numeric(a + [sep] + b)
  {
    var s := a + [sep] + b;
    forall i | 0 <= i < |s| ensures NumericChar(s[i]) {
      if i < |a| { assert s[i] == a[i]; }
      else if i > |a| { assert s[i] == b[i - |a| - 1]; }
    }
  }

  lemma NormalizedFraction(a: string, sep: char, b: string)
    requires Numeral(a) && Numeral(b) && (sep == ',' || sep == '.')
    ensures Trim(a + [sep] + b) == a + [sep] + b
    ensures Normalized(a + [sep] + b) == a + ['.'] + b
  {
    var s := a + [sep] + b;
    JoinedNumeric(a, sep, b);
    NumericPlain(s);
    assert ',' !in a && '.' !in a && ',' !in b && '.' !in b;
    if sep == ',' {
      CommaFraction(a, b);
    } else {
      assert ',' !in s;
    }
  }

  /** Without other commas or dots, the rewriting turns the comma into a dot. */
  lemma CommaFraction(a: string, b: string)
    requires ',' !in a && '.' !in a && ',' !in b && '.' !in b
    requires RemoveAll(RemoveWs(a + [','] + b), '€') == a + [','] + b
    ensures Normalized(a + [','] + b) == a + ['.'] + b
  {
    var s := a + [','] + b;
    assert '.' !in s;
    RemoveAllAbsent(s, '.');
    ReplaceFirstAt(a, b, ',', '.');
  }

  /** On `[-]ip<sep>fp` the rewriting before `Number` only turns a comma into a dot. */
  lemma NormalizedNumber(neg: bool, ip: string, fp: string, sep: char)
    requires ip != [] && fp != [] && AllDigits(ip) && AllDigits(fp)
    requires sep == ',' || sep == '.'
    ensures Trim(SignText(neg) + (ip + [sep] + fp)) == SignText(neg) + (ip + [sep] + fp)
    ensures Normalized(SignText(neg) + (ip + [sep] + fp)) == SignText(neg) + (ip + "." + fp)
  {
    var a := SignText(neg) + ip;
    assert SignText(neg) + (ip + [sep] + fp) == a + [sep] + fp;
    assert SignText(neg) + (ip + "." + fp) == a + ['.'] + fp;
    SignedNumeral(neg, ip);
    assert Numeral(fp);
    NormalizedFraction(a, sep, fp);
  }

  lemma NormalizedInteger(neg: bool, ip: string)
    requires ip != [] && AllDigits(ip)
    ensures Trim(SignText(neg) + ip) == SignText(neg) + ip
    ensures Normalized(SignText(neg) + ip) == SignText(neg) + ip
  {
    SignedNumeral(neg, ip);
    NormalizedNumeral(SignText(neg) + ip);
  }

  /** What `parseNumberLoose` reads from `[-]ip<sep>fp` with a comma or a dot as `sep`. */
  lemma {:induction false} LooseReadsNumber(neg: bool, ip: string, fp: string, sep: char)
    requires ip != [] && fp != [] && AllDigits(ip) && AllDigits(fp)
    requires sep == ',' || sep == '.'
    ensures AllDigits(ip + fp)
    ensures LooseDecimal(SignText(neg) + (ip + [sep] + fp)) == Some(Decimal(Signed(neg, DigitsValue(ip + fp)), |fp|))
  {
    NormalizedNumber(neg, ip, fp, sep);
    DecimalLiteralReads(neg, ip, fp, true);
  }

  lemma {:induction false} LooseReadsInteger(neg: bool, ip: string)
    requires ip != [] && AllDigits(ip)
    ensures LooseDecimal(SignText(neg) + ip) == Some(Decimal(Signed(neg, DigitsValue(ip)), 0))
  {
    NormalizedInteger(neg, ip);
    DecimalLiteralReads(neg, ip, [], false);
    assert ip + [] == ip;
  }

  // ---------------------------------------------------------------------
  // What `parseNumberLoose` accepts

  /** Decimal text in the grammar `Number` is modelled on: a sign, digits and, when `dotted`, a dot and more digits. */
  function Spelled(sign: string, ip: string, fp: string, dotted: bool): string {
    sign + (if dotted then ip + "." + fp else ip)
  }

  lemma UnsignedShape(body: string)
    requires UnsignedDecimal(body).Some?
    ensures exists ip, fp, dotted :: SpellsDecimal(body, UnsignedDecimal(body), "", ip, fp, dotted)
  {
    var ip, fp, dotted := UnsignedParts(body);
  }

  /** The parts `UnsignedDecimal` splits its text into, at the first dot. */
  lemma UnsignedParts(body: string) returns (ip: string, fp: string, dotted: bool)
    requires UnsignedDecimal(body).Some?
    ensures SpellsDecimal(body, UnsignedDecimal(body), "", ip, fp, dotted)
  {
    var dot := FirstIndex(body, '.');
    ip := body[..dot];
    dotted := dot < |body|;
    fp := if dotted then body[dot + 1..] else [];
    DotSplit(body, dot);
    AllDigitsAppend(ip, fp);
  }

  lemma DotSplit(body: string, dot: nat)
    requires dot <= |body| && (dot < |body| ==> body[dot] == '.')
    ensures body == Spelled("", body[..dot], if dot < |body| then body[dot + 1..] else [], dot < |body|)
  {
    if dot < |body| {
      assert body == body[..dot] + [body[dot]] + body[dot + 1..];
    } else {
      assert body[..dot] == body;
    }
  }

  /** `n` is the decimal text `sign ip[.fp]` (a sign of "", "-" or "+") and `r` is the decimal it spells. */
  predicate SpellsDecimal(n: string, r: Option<Decimal>, sign: string, ip: string, fp: string, dotted: bool) {
    && n == Spelled(sign, ip, fp, dotted)
    && (sign == "" || sign == "-" || sign == "+")
    && AllDigits(ip) && AllDigits(fp) && |ip| + |fp| > 0 && (dotted || fp == [])
    && AllDigits(ip + fp)
    && r == Some(Decimal(Signed(sign == "-", DigitsValue(ip + fp)), |fp|))
  }

  /**
   * The converse of the reading lemmas above: text that `parseNumberLoose`
   * reads is, after the rewriting, either empty (read as 0) or a sign, digits
   * and an optional dot-fraction, and it reads as exactly the decimal it
   * spells. Every other text reads as nothing.
   */
  lemma LooseReadsOnlyDecimals(s: string)
    requires LooseDecimal(s).Some?
    ensures var n := Normalized(Trim(s));
      || (n == [] && LooseDecimal(s) == Some(Decimal(0, 0)))
      || exists sign, ip, fp, dotted :: SpellsDecimal(n, LooseDecimal(s), sign, ip, fp, dotted)
  {
    var n := Normalized(Trim(s));
    assert LooseDecimal(s) == DecimalLiteral(n);
    LiteralShape(n);
  }

  /** What `Number` accepts, as `LooseReadsOnlyDecimals` states it after the rewriting. */
  lemma LiteralShape(n: string)
    requires DecimalLiteral(n).Some?
    ensures
      || (n == [] && DecimalLiteral(n) == Some(Decimal(0, 0)))
      || exists sign, ip, fp, dotted :: SpellsDecimal(n, DecimalLiteral(n), sign, ip, fp, dotted)
  {
    if n != [] {
      var sign, ip, fp, dotted := LiteralParts(n);
    }
  }

  /** The parts `DecimalLiteral` reads non-empty text as: a sign, then what `UnsignedDecimal` reads. */
  lemma LiteralParts(n: string) returns (sign: string, ip: string, fp: string, dotted: bool)
    requires n != [] && DecimalLiteral(n).Some?
    ensures SpellsDecimal(n, DecimalLiteral(n), sign, ip, fp, dotted)
  {
    sign := SignOf(n);
    SignSplit(n);
    ip, fp, dotted := UnsignedParts(n[|sign|..]);
    assert "" + (if dotted then ip + "." + fp else ip) == (if dotted then ip + "." + fp else ip);
  }

  /** The sign `DecimalLiteral` reads at the start of non-empty text. */
  function SignOf(n: string): (sign: string)
    requires n != []
    ensures sign == "" || sign == "-" || sign == "+"
    ensures |sign| <= |n| && n[..|sign|] == sign
  {
    if n[0] == '-' then "-" else if n[0] == '+' then "+" else ""
  }

  lemma SignSplit(n: string)
    requires n != []
    ensures var sign := SignOf(n);
      && n == sign + n[|sign|..]
      && DecimalLiteral(n) == match UnsignedDecimal(n[|sign|..])
           case Some(d) => Some(Decimal(Signed(sign == "-", d.mantissa), d.scale))
           case None => None
  {
    var sign := SignOf(n);
    assert n == n[..|sign|] + n[|sign|..];
  }

  /** The characters decimal text is made of. */
  lemma SpelledChars(sign: string, ip: string, fp: string, dotted: bool)
    requires (sign == "" || sign == "-" || sign == "+") && AllDigits(ip) && AllDigits(fp)
    ensures var t := Spelled(sign, ip, fp, dotted);
      forall j :: 0 <= j < |t| ==> IsDigit(t[j]) || t[j] == '-' || t[j] == '+' || t[j] == '.'
  {
    var t := Spelled(sign, ip, fp, dotted);
    forall j | 0 <= j < |t| ensures IsDigit(t[j]) || t[j] == '-' || t[j] == '+' || t[j] == '.' {
      var k := j - |sign|;
      if 0 <= k < |ip| {
        assert t[j] == ip[k];
      } else if dotted && k > |ip| {
        assert t[j] == fp[k - |ip| - 1];
      }
    }
  }

  /** Garbage reads as nothing: a character other than a digit, a sign or a dot left after the rewriting. */
  lemma LooseRejectsForeign(s: string, i: int)
    requires var n := Normalized(Trim(s));
      0 <= i < |n| && !IsDigit(n[i]) && n[i] != '-' && n[i] != '+' && n[i] != '.'
    ensures LooseDecimal(s) == None
  {
    var n := Normalized(Trim(s));
    if LooseDecimal(s).Some? {
      LooseReadsOnlyDecimals(s);
      var sign, ip, fp, dotted :| SpellsDecimal(n, LooseDecimal(s), sign, ip, fp, dotted);
      SpelledChars(sign, ip, fp, dotted);
      assert false;
    }
  }

  /**
   * `t` is the digits `ip`, the separator and the `k` digits `fp`, spelling
   * `a` in units of 10^-k, with no leading zero in `ip`.
   */
  predicate DigitsAround(t: string, sep: char, a: nat, k: nat, ip: string, fp: string) {
    && t == ip + [sep] + fp
    && ip != [] && fp != [] && AllDigits(ip) && AllDigits(fp) && |fp| == k
    && AllDigits(ip + fp) && DigitsValue(ip + fp) == a
    && (|ip| > 1 ==> ip[0] != '0')
  }

  lemma {:induction false} DecimalTextShape(a: nat, k: nat, sep: char)
    requires k > 0
    ensures exists ip, fp :: DigitsAround(DecimalText(a, k, sep), sep, a, k, ip, fp)
  {
    var p := Pow10(k);
    DivMod(a, p);
    var q, r := a / p, a % p;
    var ip := NatDigits(q);
    var fp := PadLeft(NatDigits(r), k);
    LengthBound(r, k);
    assert |fp| == k;
    DigitsConcat(ip, fp);
    assert DigitsValue(ip) * p + DigitsValue(fp) == a;
    assert DecimalText(a, k, sep) == ip + [sep] + fp;
    assert DigitsAround(DecimalText(a, k, sep), sep, a, k, ip, fp);
  }

  /** A number below 10^k has at most k digits. */
  lemma {:induction false} LengthBound(n: nat, k: nat)
    requires n < Pow10(k)
    ensures |NatDigits(n)| <= k || (n == 0 && k == 0)
  {
    if n >= 10 {
      LengthBound(n / 10, k - 1);
    }
  }

  /** Reading back `DecimalText` recovers the number. */
  lemma {:induction false} DecimalTextRoundTrip(neg: bool, a: nat, k: nat, sep: char)
    requires sep == ',' || sep == '.'
    ensures LooseDecimal(SignText(neg) + DecimalText(a, k, sep)) == Some(Decimal(Signed(neg, a), k))
  {
    if k == 0 {
      LooseReadsInteger(neg, NatDigits(a));
    } else {
      DecimalTextShape(a, k, sep);
      var ip, fp :| DigitsAround(DecimalText(a, k, sep), sep, a, k, ip, fp);
      LooseReadsNumber(neg, ip, fp, sep);
    }
  }

  /**
   * `formatPrice` writes a minus sign for negative amounts, the whole units
   * without grouping or leading zeros, a comma and exactly two digits: the
   * amount in cents.
   */
  lemma FormatPriceShape(x: real)
    ensures exists ip, fp ::
      && FormatPrice(Finite(x)) == SignText(x < 0.0) + (ip + [','] + fp)
      && DigitsAround(ip + [','] + fp, ',', Cents(Abs(x)), 2, ip, fp)
  {
    var n := Cents(Abs(x));
    DecimalTextShape(n, 2, ',');
    var ip, fp :| DigitsAround(DecimalText(n, 2, ','), ',', n, 2, ip, fp);
    assert FormatPrice(Finite(x)) == SignText(x < 0.0) + (ip + [','] + fp);
  }

  /** Reading a price written by `formatPrice` gives the amount rounded to cents. */
  lemma FormatPriceRoundTrip(x: real)
    ensures ParseNumberLoose(Str(FormatPrice(Finite(x)))) == Some(RoundToCents(x))
  {
    FormatPriceReads(x);
    RoundToCentsDecimal(x);
  }

  lemma FormatPriceReads(x: real)
    ensures ParseNumberLoose(Str(FormatPrice(Finite(x)))) == Some(Decimal(Signed(x < 0.0, Cents(Abs(x))), 2).Value())
  {
    var neg := x < 0.0;
    var n := Cents(Abs(x));
    assert FormatPrice(Finite(x)) == SignText(neg) + DecimalText(n, 2, ',');
    DecimalTextRoundTrip(neg, n, 2, ',');
  }

  lemma RoundToCentsDecimal(x: real)
    ensures RoundToCents(x) == Decimal(Signed(x < 0.0, Cents(Abs(x))), 2).Value()
  {
    CentsValue(x < 0.0, Cents(Abs(x)));
  }

  lemma CentsValue(neg: bool, n: nat)
    ensures Decimal(Signed(neg, n), 2).Value() == if neg then -(n as real / 100.0) else n as real / 100.0
  {
    assert Pow10(2) == 100;
  }

  /** An amount that already has at most two decimals survives `formatPrice` unchanged. */
  lemma RoundToCentsExact(x: real, c: int)
    requires x * 100.0 == c as real
    ensures RoundToCents(x) == x
  {
    if x < 0.0 {
      assert Abs(x) * 100.0 + 0.5 == (-c) as real + 0.5;
      assert Cents(Abs(x)) == -c;
    } else {
      assert Abs(x) * 100.0 + 0.5 == c as real + 0.5;
      assert Cents(Abs(x)) == c;
    }
  }

  /** Rounding to cents moves a price by at most half a cent. */
  lemma RoundToCentsError(x: real)
    ensures Abs(RoundToCents(x) - x) <= 0.005
  {
  }

  /** For every two-decimal amount, `parseNumberLoose(formatPrice(x)) == x`. */
  lemma FormatPriceReadsBack(x: real, c: int)
    requires x * 100.0 == c as real
    ensures ParseNumberLoose(Str(FormatPrice(Finite(x)))) == Some(x)
  {
    FormatPriceRoundTrip(x);
    RoundToCentsExact(x, c);
  }

  /** `String(x)` of a decimal is read back by `parseNumberLoose` as the same number. */
  lemma NumberToStringRoundTrip(d: Decimal)
    ensures ParseNumberLoose(Str(NumberToString(d))) == Some(d.Value())
  {
    var c := Canonical(d);
    CanonicalText(d);
    NumberToStringReads(c);
    LooseValue(NumberToString(d), c);
  }

  lemma CanonicalIdempotent(d: Decimal)
    ensures Canonical(Canonical(d)) == Canonical(d)
  {
  }

  lemma CanonicalText(d: Decimal)
    ensures NumberToString(d) == NumberToString(Canonical(d))
  {
    CanonicalIdempotent(d);
  }

  /** `parseNumberLoose` on text gives the value of the decimal `LooseDecimal` reads. */
  lemma LooseValue(t: string, c: Decimal)
    requires LooseDecimal(t) == Some(c)
    ensures ParseNumberLoose(Str(t)) == Some(c.Value())
  {
  }

  /** `String` of an already canonical decimal reads back as that decimal. */
  lemma NumberToStringReads(c: Decimal)
    requires c.scale > 0 ==> c.mantissa % 10 != 0
    ensures LooseDecimal(NumberToString(c)) == Some(c)
  {
    var neg := c.mantissa < 0;
    var a: nat := if neg then -c.mantissa else c.mantissa;
    assert Canonical(c) == c;
    assert NumberToString(c) == SignText(neg) + DecimalText(a, c.scale, '.');
    DecimalTextRoundTrip(neg, a, c.scale, '.');
    assert Signed(neg, a) == c.mantissa;
  }

  // ---------------------------------------------------------------------
  // The two input dialects

  function FractionValue(ip: string, fp: string): real
    requires AllDigits(ip) && AllDigits(fp)
  {
    DigitsValue(ip) as real + DigitsValue(fp) as real / Pow10(|fp|) as real
  }

  lemma DecimalValueSplit(ip: string, fp: string)
    requires AllDigits(ip) && AllDigits(fp)
    ensures AllDigits(ip + fp)
    ensures Decimal(DigitsValue(ip + fp), |fp|).Value() == FractionValue(ip, fp)
  {
    DigitsConcat(ip, fp);
    ShiftedQuotient(DigitsValue(ip), DigitsValue(fp), Pow10(|fp|));
  }

  lemma ShiftedQuotient(x: nat, y: nat, p: nat)
    requires p >= 1
    ensures (x * p + y) as real / p as real == x as real + y as real / p as real
  {
    var xr, yr, pr := x as real, y as real, p as real;
    assert (x * p + y) as real == xr * pr + yr;
    assert (xr * pr + yr) / pr == xr * pr / pr + yr / pr;
    assert xr * pr / pr == xr;
  }

  /** Dot-decimal text such as "6.4" is read with the dot as the decimal point. */
  lemma DotDecimal(ip: string, fp: string)
    requires ip != [] && fp != [] && AllDigits(ip) && AllDigits(fp)
    ensures ParseNumberLoose(Str(ip + "." + fp)) == Some(FractionValue(ip, fp))
  {
    assert SignText(false) + (ip + ['.'] + fp) == ip + "." + fp;
    LooseReadsNumber(false, ip, fp, '.');
    DecimalValueSplit(ip, fp);
  }

  /** German display text such as "6,40 €" is read with the comma as the decimal point. */
  lemma GermanDecimal(ip: string, fp: string)
    requires ip != [] && fp != [] && AllDigits(ip) && AllDigits(fp)
    ensures ParseNumberLoose(Str(ip + "," + fp + " €")) == Some(FractionValue(ip, fp))
  {
    DisplayNormalized(ip, fp);
    assert SignText(false) + (ip + "." + fp) == ip + ['.'] + fp;
    DecimalLiteralReads(false, ip, fp, true);
    DecimalValueSplit(ip, fp);
  }

  lemma DisplayNormalized(ip: string, fp: string)
    requires ip != [] && fp != [] && AllDigits(ip) && AllDigits(fp)
    ensures Trim(ip + "," + fp + " €") == ip + "," + fp + " €"
    ensures Normalized(ip + "," + fp + " €") == ip + ['.'] + fp
  {
    var s := ip + "," + fp + " €";
    assert IsDigit(s[0]) && s[|s| - 1] == '€';
    TrimOfTrimmed(s);
    DisplayStripped(ip, fp);
    assert Numeral(ip) && Numeral(fp);
    NormalizedFraction(ip, ',', fp);
  }

  lemma DisplayStripped(ip: string, fp: string)
    requires AllDigits(ip) && AllDigits(fp)
    ensures RemoveAll(RemoveWs(ip + "," + fp + " €"), '€') == RemoveAll(RemoveWs(ip + [','] + fp), '€')
  {
    var plain := ip + [','] + fp;
    assert ip + "," + fp + " €" == plain + " €";
    RemoveWsAppend(plain, " €");
    assert RemoveWs(" €") == "€" by {
      assert " €"[1..] == "€";
      RemoveWsNoWs("€");
    }
    RemoveAllAppend(RemoveWs(plain), "€", '€');
    assert RemoveAll("€", '€') == [];
    assert RemoveAll(RemoveWs(plain), '€') + [] == RemoveAll(RemoveWs(plain), '€');
  }

  /** Digits and dots: the integer part of German text with thousands separators. */
  predicate DigitsDots(s: string) {
    forall i :: 0 <= i < |s| ==> IsDigit(s[i]) || s[i] == '.'
  }

  lemma {:induction false} DigitsDotsRemove(s: string)
    requires DigitsDots(s)
    ensures AllDigits(RemoveAll(s, '.'))
  {
    if s != [] {
      assert DigitsDots(s[1..]);
      DigitsDotsRemove(s[1..]);
    }
  }

  /**
   * With a comma present every dot is a thousands separator and is dropped,
   * however many there are and wherever they stand: "1.234.567,89" reads as
   * 1234567.89.
   */
  lemma GermanThousands(a: string, b: string)
    requires DigitsDots(a) && DigitsDots(b)
    ensures AllDigits(RemoveAll(a, '.')) && AllDigits(RemoveAll(b, '.'))
    ensures |RemoveAll(a, '.')| + |RemoveAll(b, '.')| > 0 ==>
      ParseNumberLoose(Str(a + "," + b)) == Some(FractionValue(RemoveAll(a, '.'), RemoveAll(b, '.')))
    ensures |RemoveAll(a, '.')| + |RemoveAll(b, '.')| == 0 ==> ParseNumberLoose(Str(a + "," + b)) == None
  {
    var ra, rb := RemoveAll(a, '.'), RemoveAll(b, '.');
    DigitsDotsRemove(a);
    DigitsDotsRemove(b);
    ThousandsNormalized(a, b);
    if |ra| + |rb| > 0 {
      assert SignText(false) + (ra + "." + rb) == ra + "." + rb;
      DecimalLiteralReads(false, ra, rb, true);
      DecimalValueSplit(ra, rb);
    } else {
      assert ra + "." + rb == ".";
      ReadsLoneDot(a + "," + b);
    }
  }

  /** Text that is rewritten to a lone decimal point is not a number. */
  lemma ReadsLoneDot(s: string)
    requires Trim(s) == s && s != [] && Normalized(s) == "."
    ensures ParseNumberLoose(Str(s)) == None
  {
    assert "."[1..] == [];
    assert DecimalLiteral(".") == None;
  }

  lemma ThousandsNormalized(a: string, b: string)
    requires DigitsDots(a) && DigitsDots(b)
    ensures Trim(a + "," + b) == a + "," + b
    ensures Normalized(a + "," + b) == RemoveAll(a, '.') + "." + RemoveAll(b, '.')
  {
    var s := a + "," + b;
    assert Numeric(s) by {
      forall i | 0 <= i < |s| ensures NumericChar(s[i]) {
        if i < |a| { assert s[i] == a[i]; } else if i > |a| { assert s[i] == b[i - |a| - 1]; }
      }
    }
    NumericPlain(s);
    assert s[|a|] == ',';
    var ra, rb := RemoveAll(a, '.'), RemoveAll(b, '.');
    DropDotsAroundComma(a, b);
    DigitsDotsRemove(a);
    assert ',' !in ra;
    ReplaceFirstAt(ra, rb, ',', '.');
  }

  /** Dropping the dots on either side of a comma. */
  lemma DropDotsAroundComma(a: string, b: string)
    ensures RemoveAll(a + "," + b, '.') == RemoveAll(a, '.') + [','] + RemoveAll(b, '.')
  {
    assert a + "," + b == a + ("," + b);
    RemoveAllAppend(a, "," + b, '.');
    RemoveAllAppend(",", b, '.');
    assert RemoveAll(",", '.') == ",";
  }

  /** Dropping the dots of `x + "." + y` when `y` has none. */
  lemma DropDot(x: string, y: string)
    requires '.' !in y
    ensures RemoveAll(x + "." + y, '.') == RemoveAll(x, '.') + y
  {
    RemoveAllAppend(x + ".", y, '.');
    RemoveAllAppend(x, ".", '.');
    RemoveAllAbsent(y, '.');
    assert RemoveAll(".", '.') == [];
    assert RemoveAll(x, '.') + [] == RemoveAll(x, '.');
  }

  // ---------------------------------------------------------------------
  // Worked examples: the inputs named in the doc comment of parseNumberLoose

  lemma ReadsGermanThousandsExample()
    ensures ParseNumberLoose(Str("1.234,56")) == Some(1234.56)
  {
    assert "1.234,56" == "1.234" + "," + "56";
    ThousandsDots();
    RemoveAllAbsent("56", '.');
    assert DigitsDots("1.234") && DigitsDots("56");
    GermanThousands("1.234", "56");
    ThousandsValue();
  }

  lemma ReadsGermanMillionsExample()
    ensures ParseNumberLoose(Str("1.234.567,89")) == Some(1234567.89)
  {
    MillionsSpelled();
    GermanThousands("1.234.567", "89");
    MillionsValue();
  }

  /** How "1.234.567,89" splits around its comma and its dots. */
  lemma MillionsSpelled()
    ensures "1.234.567,89" == "1.234.567" + "," + "89"
    ensures RemoveAll("1.234.567", '.') == "1" + "234" + "567"
    ensures RemoveAll("89", '.') == "89"
    ensures DigitsDots("1.234.567") && DigitsDots("89")
  {
    assert "1.234.567" == "1.234" + "." + "567";
    DropDot("1.234", "567");
    ThousandsDots();
    assert RemoveAll("1.234.567", '.') == ("1" + "234") + "567";
    RemoveAllAbsent("89", '.');
    MillionsChars();
  }

  lemma MillionsChars()
    ensures DigitsDots("1.234.567") && DigitsDots("89")
  {
  }

  /** Removing the dot of "1.234". */
  lemma ThousandsDots()
    ensures RemoveAll("1.234", '.') == "1" + "234"
  {
    assert "1.234" == "1" + "." + "234";
    DropDot("1", "234");
    RemoveAllAbsent("1", '.');
  }

  lemma MillionsValue()
    ensures AllDigits("1" + "234" + "567")
    ensures FractionValue("1" + "234" + "567", "89") == 1234567.89
  {
    assert "1" + "234" + "567" == "1234567";
    SevenDigits();
    TwoDigits('8', '9');
    assert Pow10(2) == 100;
  }

  lemma SevenDigits()
    ensures AllDigits("1234567") && DigitsValue("1234567") == 1234567
  {
    FourDigits();
    assert DigitsValue("12345") == 12345 by { assert "12345"[..4] == "1234"; }
    assert DigitsValue("123456") == 123456 by { assert "123456"[..5] == "12345"; }
    assert DigitsValue("1234567") == 1234567 by { assert "1234567"[..6] == "123456"; }
  }

  lemma FourDigits()
    ensures AllDigits("1234") && DigitsValue("1234") == 1234
  {
    assert DigitsValue("1") == 1 by { assert "1"[..0] == ""; }
    assert DigitsValue("12") == 12 by { assert "12"[..1] == "1"; }
    assert DigitsValue("123") == 123 by { assert "123"[..2] == "12"; }
    assert DigitsValue("1234") == 1234 by { assert "1234"[..3] == "123"; }
  }

  /** The value of a two-digit string. */
  lemma TwoDigits(a: char, b: char)
    requires IsDigit(a) && IsDigit(b)
    ensures AllDigits([a, b]) && DigitsValue([a, b]) == DigitValue(a) * 10 + DigitValue(b)
  {
    assert [a, b][..1] == [a];
    assert [a][..0] == [];
    assert DigitsValue([a]) == DigitValue(a);
  }

  lemma ThousandsValue()
    ensures AllDigits("1" + "234")
    ensures FractionValue("1" + "234", "56") == 1234.56
  {
    assert "1" + "234" == "1234";
    FourDigits();
    TwoDigits('5', '6');
    assert Pow10(2) == 100;
  }

  lemma ReadsGermanDisplayExample()
    ensures ParseNumberLoose(Str("6,40 €")) == Some(6.4)
  {
    assert "6,40 €" == "6" + "," + "40" + " €";
    GermanDecimal("6", "40");
    DisplayValue();
  }

  lemma DisplayValue()
    ensures FractionValue("6", "40") == 6.4
  {
    assert DigitsValue("6") == 6 by { assert "6"[..0] == ""; }
    assert DigitsValue("4") == 4 by { assert "4"[..0] == ""; }
    assert DigitsValue("40") == 40 by { assert "40"[..1] == "4"; }
    assert Pow10(2) == 100;
  }

  lemma FormatPriceExample()
    ensures FormatPrice(Finite(6.4)) == "6,40"
  {
    PriceExample(6.4, 6, 40, "6");
  }

  /** A price of `units` and `cents` cents, at least ten, is written with its units, a comma and its cents. */
  lemma PriceExample(x: real, units: nat, cents: nat, u: string)
    requires 10 <= cents < 100 && x == units as real + cents as real / 100.0
    requires u == NatDigits(units)
    ensures FormatPrice(Finite(x)) == u + "," + NatDigits(cents)
  {
    var n := units * 100 + cents;
    assert Cents(x) == n;
    PriceDigits(n, units, cents);
  }

  lemma PriceDigits(n: nat, units: nat, cents: nat)
    requires 10 <= cents < 100 && n == units * 100 + cents
    ensures DecimalText(n, 2, ',') == NatDigits(units) + "," + NatDigits(cents)
  {
    assert Pow10(2) == 100;
    assert n / 100 == units && n % 100 == cents;
    var p := NatDigits(cents);
    assert PadLeft(p, 2) == p by {
      assert Zeros(0) == "";
    }
  }
}
