/**
 * Card-name clean-up of the export builder (extension/background.js):
 * `normalizeName` trims, and `cleanDisplayName` also removes one trailing
 * Cardmarket version marker, "(V.n)" or "(Version n)", in either case.
 *
 * The two markers are regular expressions anchored at the end of the text;
 * `replace` without the global flag removes the leftmost match, which is
 * modelled as a search for the smallest start position whose suffix matches.
 */
module Names {
  import opened Wrappers
  import opened Text

  /** The two markers, tried in this order. */
  datatype Marker = VMarker | VersionMarker

  /** `normalizeName`: the name without surrounding whitespace. */
  function NormalizeName(name: string): (r: string)
    ensures Trimmed(r)
    ensures r == [] <==> AllWs(name)
    ensures exists a, b :: BlankMargins(name, r, a, b)
  {
    TrimEmptyIffBlank(name);
    TrimIsSlice(name);
    Trim(name)
  }

  /** `\d+\)\s*$`: one or more digits, a closing parenthesis, then only whitespace. */
  predicate ClosedNumber(r: string) {
    |r| >= 2 && IsDigit(r[0]) && ((r[1] == ')' && AllWs(r[2..])) || ClosedNumber(r[1..]))
  }

  /** `\s*\d+\)\s*$` */
  predicate BlankThenNumber(r: string) {
    ClosedNumber(r) || (r != [] && IsWs(r[0]) && BlankThenNumber(r[1..]))
  }

  /** What follows the parenthesis in `\(V\.\d+\)\s*$` with the `i` flag. */
  predicate VBody(b: string) {
    |b| >= 2 && LowerChar(b[0]) == 'v' && b[1] == '.' && ClosedNumber(b[2..])
  }

  /** What follows the parenthesis in `\(Version\s*\d+\)\s*$` with the `i` flag. */
  predicate VersionBody(b: string) {
    |b| >= 7 && AsciiLower(b[..7]) == "version" && BlankThenNumber(b[7..])
  }

  predicate MarkerBody(b: string, m: Marker) {
    match m
    case VMarker => VBody(b)
    case VersionMarker => VersionBody(b)
  }

  /** The whole regular expression, leading `\s*` included, matches all of `t`. */
  predicate MarkerTail(t: string, m: Marker) {
    t != [] && ((IsWs(t[0]) && MarkerTail(t[1..], m)) || (t[0] == '(' && MarkerBody(t[1..], m)))
  }

  /** The leftmost position from `i` on where the marker matches up to the end of `s`. */
  function FindMarker(s: string, m: Marker, i: nat): (r: Option<nat>)
    requires i <= |s|
    ensures r.Some? ==> i <= r.value <= |s| && MarkerTail(s[r.value..], m)
    ensures r.Some? ==> forall j :: i <= j < r.value ==> !MarkerTail(s[j..], m)
    ensures r.None? ==> forall j :: i <= j <= |s| ==> !MarkerTail(s[j..], m)
    decreases |s| - i
  {
    if MarkerTail(s[i..], m) then Some(i)
    else if i == |s| then None
    else
      var r := FindMarker(s, m, i + 1);
      NoMarkerAt(s, m, i, r);
      r
  }

  /** A search that fails at `i` finds what the search from `i + 1` finds. */
  lemma NoMarkerAt(s: string, m: Marker, i: nat, r: Option<nat>)
    requires i < |s| && !MarkerTail(s[i..], m)
    requires r.Some? ==> i + 1 <= r.value <= |s| && forall j :: i + 1 <= j < r.value ==> !MarkerTail(s[j..], m)
    requires r.None? ==> forall j :: i + 1 <= j <= |s| ==> !MarkerTail(s[j..], m)
    ensures r.Some? ==> forall j :: i <= j < r.value ==> !MarkerTail(s[j..], m)
    ensures r.None? ==> forall j :: i <= j <= |s| ==> !MarkerTail(s[j..], m)
  {
  }

  /** `s.replace(re, '')` for the marker's expression: the leftmost match is cut off. */
  function StripMarker(s: string, m: Marker): (r: string)
    ensures (exists i :: 0 <= i <= |s| && MarkerTail(s[i..], m)) ==>
              exists i :: 0 <= i <= |s| && MarkerTail(s[i..], m) && r == s[..i]
                && forall j :: 0 <= j < i ==> !MarkerTail(s[j..], m)
    ensures (forall i :: 0 <= i <= |s| ==> !MarkerTail(s[i..], m)) ==> r == s
  {
    match FindMarker(s, m, 0)
    case Some(i) => s[..i]
    case None => s
  }

  /** `cleanDisplayName`: trim, drop a "(V.n)" marker, then a "(Version n)" marker, trim again. */
  function CleanDisplayName(name: string): (r: string)
    ensures Trimmed(r)
  {
    Trim(StripMarker(StripMarker(NormalizeName(name), VMarker), VersionMarker))
  }

  // ---------------------------------------------------------------------
  // Shape of a match

  lemma {:induction false} ClosedNumberNoParen(r: string)
    ensures ClosedNumber(r) ==> '(' !in r
  {
    if |r| >= 2 {
      ClosedNumberNoParen(r[1..]);
      assert r == [r[0]] + r[1..];
      assert r[1..] == [r[1]] + r[2..];
    }
  }

  lemma {:induction false} BlankThenNumberNoParen(r: string)
    ensures BlankThenNumber(r) ==> '(' !in r
  {
    ClosedNumberNoParen(r);
    if r != [] {
      BlankThenNumberNoParen(r[1..]);
      assert r == [r[0]] + r[1..];
    }
  }

  /** A marker body never contains an opening parenthesis. */
  lemma MarkerBodyNoParen(b: string, m: Marker)
    ensures MarkerBody(b, m) ==> '(' !in b
  {
    if |b| >= 2 {
      ClosedNumberNoParen(b[2..]);
      assert b == [b[0], b[1]] + b[2..];
    }
    if |b| >= 7 {
      BlankThenNumberNoParen(b[7..]);
      assert b == b[..7] + b[7..];
      if AsciiLower(b[..7]) == "version" {
        forall i | 0 <= i < 7 ensures b[..7][i] != '(' {
          assert AsciiLower(b[..7])[i] == LowerChar(b[..7][i]);
        }
      }
    }
  }

  lemma ElemInSuffix(s: string, j: int, p: int)
    ensures 0 <= j <= p < |s| ==> s[p] in s[j..]
  {
    if 0 <= j <= p < |s| {
      assert s[j..][p - j] == s[p];
    }
  }

  /** A match can only start in the whitespace right before the last opening parenthesis. */
  lemma {:induction false} MatchNearParen(pre: string, body: string, m: Marker, i: nat)
    requires '(' !in body && i <= |pre| + 1 + |body|
    ensures MarkerTail((pre + ['('] + body)[i..], m) ==> i <= |pre| && AllWs(pre[i..]) && MarkerBody(body, m)
    decreases |pre| + 1 + |body| - i
  {
    var s := pre + ['('] + body;
    var t := s[i..];
    if i < |s| {
      assert t[1..] == s[i + 1..];
      MatchNearParen(pre, body, m, i + 1);
      MarkerBodyNoParen(t[1..], m);
    }
    if i < |pre| {
      ElemInSuffix(t, 1, |pre| - i);
      assert t[0] == pre[i];
      assert pre[i..] == [pre[i]] + pre[i + 1..];
    } else if i == |pre| {
      assert t[0] == '(' && t[1..] == body;
    } else if i < |s| {
      assert t[0] == body[i - |pre| - 1];
      ElemInSuffix(body, 0, i - |pre| - 1);
      assert body[0..] == body;
    }
  }

  /** Where the text before the parenthesis ends in whitespace only, the marker matches. */
  lemma {:induction false} ParenStartsTail(pre: string, body: string, m: Marker, i: nat)
    requires MarkerBody(body, m) && i <= |pre| && AllWs(pre[i..])
    ensures MarkerTail((pre + ['('] + body)[i..], m)
    decreases |pre| - i
  {
    var s := pre + ['('] + body;
    var t := s[i..];
    if i == |pre| {
      assert t[0] == '(' && t[1..] == body;
    } else {
      assert t[0] == pre[i] && pre[i..][0] == pre[i];
      assert t[1..] == s[i + 1..];
      assert pre[i + 1..] == pre[i..][1..];
      ParenStartsTail(pre, body, m, i + 1);
    }
  }

  /** Whitespace at the end of a string reaches back no further than its trailing blanks. */
  lemma {:induction false} TrailingWsBound(pre: string, i: nat)
    ensures i <= |pre| && AllWs(pre[i..]) ==> i >= |pre| - TrailingWs(pre)
  {
    if i < |pre| && AllWs(pre[i..]) {
      var u := pre[..|pre| - 1];
      assert pre[i..][|pre| - 1 - i] == pre[|pre| - 1];
      assert u[i..] == pre[i..][..|pre| - 1 - i];
      TrailingWsBound(u, i);
    }
  }

  /** The leftmost match is found when it is known. */
  lemma FindLeftmost(s: string, m: Marker, start: nat)
    requires start <= |s| && MarkerTail(s[start..], m)
    requires forall j :: 0 <= j < start ==> !MarkerTail(s[j..], m)
    ensures StripMarker(s, m) == s[..start]
  {
    var r := FindMarker(s, m, 0);
    assert r == Some(start);
  }

  /** A marker after `pre` is cut off together with the whitespace before it. */
  lemma {:induction false} StripAtParen(pre: string, body: string, m: Marker)
    requires MarkerBody(body, m)
    ensures StripMarker(pre + ['('] + body, m) == TrimEnd(pre)
  {
    var s := pre + ['('] + body;
    MarkerBodyNoParen(body, m);
    var start := |pre| - TrailingWs(pre);
    ParenStartsTail(pre, body, m, start);
    forall j | 0 <= j < start ensures !MarkerTail(s[j..], m) {
      MatchNearParen(pre, body, m, j);
      TrailingWsBound(pre, j);
    }
    FindLeftmost(s, m, start);
    assert s[..start] == pre[..start];
  }

  /** When what follows the last parenthesis is not the marker, nothing is removed. */
  lemma {:induction false} KeepAtParen(pre: string, body: string, m: Marker)
    requires '(' !in body && !MarkerBody(body, m)
    ensures StripMarker(pre + ['('] + body, m) == pre + ['('] + body
  {
    var s := pre + ['('] + body;
    forall j | 0 <= j <= |s| ensures !MarkerTail(s[j..], m) {
      MatchNearParen(pre, body, m, j);
    }
  }

  predicate EndsClosed(r: string) {
    r != [] && (r[|r| - 1] == ')' || IsWs(r[|r| - 1]))
  }

  lemma {:induction false} ClosedNumberEnd(r: string)
    ensures ClosedNumber(r) ==> EndsClosed(r)
  {
    if |r| >= 2 {
      ClosedNumberEnd(r[1..]);
      assert r[1..][|r| - 2] == r[|r| - 1];
      if |r| > 2 {
        assert r[2..][|r| - 3] == r[|r| - 1];
      }
    }
  }

  lemma {:induction false} BlankThenNumberEnd(r: string)
    ensures BlankThenNumber(r) ==> EndsClosed(r)
  {
    ClosedNumberEnd(r);
    if |r| >= 2 {
      BlankThenNumberEnd(r[1..]);
      assert r[1..][|r| - 2] == r[|r| - 1];
    }
  }

  lemma MarkerBodyEnd(b: string, m: Marker)
    ensures MarkerBody(b, m) ==> EndsClosed(b)
  {
    if |b| > 2 {
      ClosedNumberEnd(b[2..]);
      assert b[2..][|b| - 3] == b[|b| - 1];
    }
    if |b| > 7 {
      BlankThenNumberEnd(b[7..]);
      assert b[7..][|b| - 8] == b[|b| - 1];
    }
  }

  /** Every match ends in a closing parenthesis followed by whitespace only. */
  lemma {:induction false} MarkerTailEnd(t: string, m: Marker)
    ensures MarkerTail(t, m) ==> EndsClosed(t)
  {
    if t != [] {
      MarkerTailEnd(t[1..], m);
      MarkerBodyEnd(t[1..], m);
      if |t| > 1 {
        assert t[1..][|t| - 2] == t[|t| - 1];
      }
    }
  }

  /** A string that ends in something other than ')' or whitespace keeps both markers. */
  lemma NoMarkerWithoutParen(s: string, m: Marker)
    requires s == [] || (s[|s| - 1] != ')' && !IsWs(s[|s| - 1]))
    ensures StripMarker(s, m) == s
  {
    forall i | 0 <= i <= |s| ensures !MarkerTail(s[i..], m) {
      MarkerTailEnd(s[i..], m);
      if i < |s| {
        assert s[i..][|s| - i - 1] == s[|s| - 1];
      }
    }
  }

  // ---------------------------------------------------------------------
  // What `cleanDisplayName` does to a name

  lemma {:induction false} TrailingBlank(x: string, w: string)
    requires AllWs(w) && (x == [] || !IsWs(x[|x| - 1]))
    ensures TrailingWs(x + w) == |w|
  {
    if w == [] {
      assert x + w == x;
    } else {
      var s := x + w;
      assert s[|s| - 1] == w[|w| - 1];
      assert s[..|s| - 1] == x + w[..|w| - 1];
      TrailingBlank(x, w[..|w| - 1]);
    }
  }

  lemma TrimEndBlank(x: string, w: string)
    requires AllWs(w) && (x == [] || !IsWs(x[|x| - 1]))
    ensures TrimEnd(x + w) == x
  {
    TrailingBlank(x, w);
    assert (x + w)[..|x|] == x;
  }

  lemma {:induction false} ClosedDigits(d: string, w: string)
    requires d != [] && AllDigits(d) && AllWs(w)
    ensures ClosedNumber(d + ")" + w)
  {
    var r := d + ")" + w;
    assert r[0] == d[0];
    if |d| == 1 {
      assert r[1] == ')' && r[2..] == w;
    } else {
      assert r[1..] == d[1..] + ")" + w;
      ClosedDigits(d[1..], w);
    }
  }

  lemma {:induction false} BlankDigits(w: string, d: string)
    requires AllWs(w) && d != [] && AllDigits(d)
    ensures BlankThenNumber(w + d + ")")
  {
    if w == [] {
      assert w + d + ")" == d + ")" + [];
      ClosedDigits(d, []);
    } else {
      var r := w + d + ")";
      assert r[0] == w[0];
      assert r[1..] == w[1..] + d + ")";
      BlankDigits(w[1..], d);
    }
  }

  /** "(V.n)" with `v` in either case, `n` digits. */
  lemma VBodyOf(v: char, d: string)
    requires LowerChar(v) == 'v' && d != [] && AllDigits(d)
    ensures VBody([v, '.'] + d + ")")
  {
    var b := [v, '.'] + d + ")";
    assert b[2..] == d + ")" + [];
    ClosedDigits(d, []);
  }

  /** "(Version n)": the word in any case, optional whitespace, digits. */
  lemma VersionBodyOf(word: string, w: string, d: string)
    requires |word| == 7 && AsciiLower(word) == "version"
    requires AllWs(w) && d != [] && AllDigits(d)
    ensures VersionBody(word + w + d + ")")
    ensures '(' !in word + w + d + ")"
  {
    var b := word + w + d + ")";
    Assoc4(word, w, d, ")");
    assert b[..7] == word;
    assert b[7..] == w + d + ")";
    BlankDigits(w, d);
    MarkerBodyNoParen(b, VersionMarker);
  }

  lemma VNameParts(pre: string, v: char, d: string)
    ensures pre + "(" + [v, '.'] + d + ")" == pre + ['('] + ([v, '.'] + d + ")")
  {
  }

  lemma VersionNameParts(pre: string, word: string, w: string, d: string)
    ensures pre + "(" + word + w + d + ")" == pre + ['('] + (word + w + d + ")")
  {
  }

  lemma Assoc4(a: string, b: string, c: string, d: string)
    ensures a + b + c + d == a + (b + (c + d))
  {
  }

  lemma NotVBody(word: string, w: string, d: string)
    requires |word| == 7 && AsciiLower(word) == "version"
    ensures !VBody(word + w + d + ")")
  {
    var b := word + w + d + ")";
    assert b[1] == word[1];
    assert AsciiLower(word)[1] == LowerChar(word[1]) == 'e';
  }

  /** The text of a name with its marker: trimming leaves it unchanged. */
  lemma MarkedTrimmed(base: string, sep: string, body: string)
    requires base != [] && !IsWs(base[0]) && body != [] && body[|body| - 1] == ')'
    ensures NormalizeName(base + sep + ['('] + body) == base + sep + ['('] + body
  {
    var s := base + sep + ['('] + body;
    assert s[0] == base[0] && s[|s| - 1] == ')';
    TrimOfTrimmed(s);
  }

  /** A trailing "(V.n)" marker, in either case, is removed with the whitespace before it. */
  lemma CleanStripsV(base: string, sep: string, v: char, d: string)
    requires Trimmed(base) && base != [] && base[|base| - 1] != ')'
    requires AllWs(sep) && LowerChar(v) == 'v' && d != [] && AllDigits(d)
    ensures CleanDisplayName(base + sep + "(" + [v, '.'] + d + ")") == base
  {
    NoMarkerWithoutParen(base, VersionMarker);
    CleanStripsOneV(base, sep, v, d);
  }

  /** Only the last "(V.n)" goes; what is left is checked for "(Version n)" alone. */
  lemma CleanStripsOneV(base: string, sep: string, v: char, d: string)
    requires Trimmed(base) && base != [] && StripMarker(base, VersionMarker) == base
    requires AllWs(sep) && LowerChar(v) == 'v' && d != [] && AllDigits(d)
    ensures CleanDisplayName(base + sep + "(" + [v, '.'] + d + ")") == base
  {
    var body := [v, '.'] + d + ")";
    VNameParts(base + sep, v, d);
    MarkedTrimmed(base, sep, body);
    VBodyOf(v, d);
    StripAtParen(base + sep, body, VMarker);
    TrimEndBlank(base, sep);
    TrimOfTrimmed(base);
  }

  /** A trailing "(Version n)" marker, in any case, is removed with the whitespace before it. */
  lemma CleanStripsVersion(base: string, sep: string, word: string, w: string, d: string)
    requires Trimmed(base) && base != [] && base[|base| - 1] != ')'
    requires AllWs(sep) && |word| == 7 && AsciiLower(word) == "version"
    requires AllWs(w) && d != [] && AllDigits(d)
    ensures CleanDisplayName(base + sep + "(" + word + w + d + ")") == base
  {
    var body := word + w + d + ")";
    VersionNameParts(base + sep, word, w, d);
    MarkedTrimmed(base, sep, body);
    VersionBodyOf(word, w, d);
    NotVBody(word, w, d);
    KeepAtParen(base + sep, body, VMarker);
    StripAtParen(base + sep, body, VersionMarker);
    TrimEndBlank(base, sep);
    TrimOfTrimmed(base);
  }

  /** A name without a marker is only trimmed. */
  lemma CleanWithoutMarker(name: string)
    requires var t := Trim(name); t == [] || t[|t| - 1] != ')'
    ensures CleanDisplayName(name) == NormalizeName(name)
  {
    var t := Trim(name);
    NoMarkerWithoutParen(t, VMarker);
    NoMarkerWithoutParen(t, VersionMarker);
    TrimIdempotent(name);
  }

  /** Surrounding whitespace does not matter. */
  lemma CleanIgnoresMargins(name: string)
    ensures CleanDisplayName(Trim(name)) == CleanDisplayName(name)
  {
    TrimIdempotent(name);
  }

  // ---------------------------------------------------------------------
  // Instances

  lemma CleanExampleV()
    ensures CleanDisplayName("Ponder (v.12)") == "Ponder"
  {
    assert "Ponder" + " " + "(" + ['v', '.'] + "12" + ")" == "Ponder (v.12)";
    CleanStripsV("Ponder", " ", 'v', "12");
  }

  lemma CleanExampleVersion()
    ensures CleanDisplayName("Forest (Version 3)") == "Forest"
  {
    ForestSpelled();
    VersionLower();
    CleanStripsVersion("Forest", " ", "Version", " ", "3");
  }

  lemma ForestSpelled()
    ensures "Forest" + " " + "(" + "Version" + " " + "3" + ")" == "Forest (Version 3)"
    ensures Trimmed("Forest") && "Forest"[|"Forest"| - 1] != ')'
    ensures AllWs(" ") && AllDigits("3")
  {
  }

  lemma VersionLower()
    ensures |"Version"| == 7 && AsciiLower("Version") == "version"
  {
  }

  /** Only the last marker goes: one call removes one marker. */
  lemma CleanExampleTwoMarkers()
    ensures CleanDisplayName("Opt (V.1) (V.2)") == "Opt (V.1)"
  {
    OptSpelled();
    KeepsEarlierMarker();
    CleanStripsOneV("Opt (V.1)", " ", 'V', "2");
  }

  lemma KeepsEarlierMarker()
    ensures StripMarker("Opt (V.1)", VersionMarker) == "Opt (V.1)"
  {
    assert "Opt (V.1)" == "Opt " + ['('] + "V.1)";
    assert !VersionBody("V.1)");
    assert '(' !in "V.1)";
    KeepAtParen("Opt ", "V.1)", VersionMarker);
  }

  lemma OptSpelled()
    ensures "Opt (V.1)" + " " + "(" + ['V', '.'] + "2" + ")" == "Opt (V.1) (V.2)"
    ensures Trimmed("Opt (V.1)") && AllWs(" ") && LowerChar('V') == 'v' && AllDigits("2")
  {
  }
}
