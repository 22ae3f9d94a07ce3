/** Numbers in G-code text: the capture of `<letter>(\d*\.?\d*)`, Python's
    `float()` on the captured text, and Python's `str()` and `"{:.Nf}"`
    formatting, all over exact reals. */
module Numbers {
  import opened Wrappers
  import opened Text

  predicate IsDigit(c: char) { '0' <= c <= '9' }

  predicate AllDigits(s: string) { forall i :: 0 <= i < |s| ==> IsDigit(s[i]) }

  /** The value of a run of decimal digits, most significant digit first. */
  function DigitsValue(s: string): nat
    requires AllDigits(s)
  {
    if s == [] then 0 else DigitsValue(s[..|s| - 1]) * 10 + (s[|s| - 1] as int - '0' as int)
  }

  function Pow10(k: nat): (r: nat)
    ensures r >= 1
  {
    if k == 0 then 1 else 10 * Pow10(k - 1)
  }

  /** Text made of digits and at most one '.': everything `\d*\.?\d*` can match. */
  predicate IsDecimalText(s: string) {
    (forall i :: 0 <= i < |s| ==> IsDigit(s[i]) || s[i] == '.') &&
    (forall i, j :: 0 <= i < j < |s| && s[i] == '.' ==> s[j] != '.')
  }

  /** Length of the run of digits at the start of `s`. */
  function LeadingDigits(s: string): (n: nat)
    ensures n <= |s| && AllDigits(s[..n])
    ensures n < |s| ==> !IsDigit(s[n])
  {
    if s == [] || !IsDigit(s[0]) then 0
    else
      var m := LeadingDigits(s[1..]);
      assert s[..1 + m] == [s[0]] + s[1..][..m];
      1 + m
  }

  /** What the group `(\d*\.?\d*)` captures at the start of `s`. Greedy, and
      nothing follows the group in the pattern, so no backtracking: the longest
      run of digits, then a '.' if one follows, then the longest run of digits. */
  function NumberPrefix(s: string): (r: string)
    ensures r <= s
    ensures IsDecimalText(r)
    ensures |r| < |s| ==> !IsDigit(s[|r|]) && ('.' in r || s[|r|] != '.')
  {
    var a := LeadingDigits(s);
    if a < |s| && s[a] == '.' then
      var b := LeadingDigits(s[a + 1..]);
      var r := s[..a + 1 + b];
      assert r == s[..a] + ['.'] + s[a + 1..][..b];
      assert forall i :: 0 <= i < |r| && i != a ==> IsDigit(r[i]);
      assert '.' in r by { assert r[a] == '.'; }
      r
    else s[..a]
  }

  /** The group captured right after the first occurrence, at `i`, of the letter. */
  lemma CaptureAt(line: string, letter: char, i: nat, g: string)
    requires i < |line| && line[i] == letter && letter !in line[..i]
    requires g == NumberPrefix(line[i + 1..])
    ensures OccursAt(line, [letter] + g, i) && letter !in line[..i]
  {
    assert line[i..i + 1] == [letter];
    assert line[i + 1..][..|g|] == g;
    assert line[i..i + 1 + |g|] == line[i..i + 1] + line[i + 1..][..|g|];
  }

  /** The first occurrence Find reports has no occurrence of the letter before it. */
  lemma FirstLetter(line: string, letter: char, i: nat)
    requires Find(line, [letter]) == Some(i)
    ensures i < |line| && line[i] == letter && letter !in line[..i]
  {
    assert line[i..i + 1][0] == line[i];
    forall j | 0 <= j < i ensures line[j] != letter {
      assert !OccursAt(line, [letter], j);
      assert line[j..j + 1] == [line[j]];
    }
  }

  /** Python's `re.search(letter + r"(\d*\.?\d*)", line)`. The pattern can
      match the empty text, so the search succeeds exactly at the first
      occurrence of the letter and yields the group captured there. */
  function Capture(line: string, letter: char): (r: Option<string>)
    ensures r.Some? <==> letter in line
  {
    ContainsChar(line, letter);
    match Find(line, [letter])
    case None => None
    case Some(i) => Some(NumberPrefix(line[i + 1..]))
  }

  /** The captured group is decimal text that follows the first occurrence
      of the letter, and it is the longest such text: the character after it,
      if any, is no digit, and no '.' either unless the group has one. */
  lemma CaptureMeaning(line: string, letter: char)
    requires letter in line
    ensures IsDecimalText(Capture(line, letter).value)
    ensures var g := Capture(line, letter).value;
      exists i :: OccursAt(line, [letter] + g, i) && letter !in line[..i] &&
        (i + 1 + |g| < |line| ==> !IsDigit(line[i + 1 + |g|]) && ('.' in g || line[i + 1 + |g|] != '.'))
  {
    ContainsChar(line, letter);
    var i := Find(line, [letter]).value;
    var g := NumberPrefix(line[i + 1..]);
    FirstLetter(line, letter, i);
    CaptureAt(line, letter, i, g);
    if i + 1 + |g| < |line| {
      assert line[i + 1..][|g|] == line[i + 1 + |g|];
    }
  }

  /** Python's `group[1:]`: the text without its first character. */
  function DropFirst(g: string): (r: string)
    ensures g == [] ==> r == []
    ensures g != [] ==> g == [g[0]] + r
    ensures IsDecimalText(g) ==> IsDecimalText(r)
  {
    if |g| == 0 then "" else g[1..]
  }

  predicate HasDigit(s: string) { exists i :: 0 <= i < |s| && IsDigit(s[i]) }

  /** Python's `float(s)`, for text made of digits and '.' only (the only text
      the capture above can produce). It accepts only decimal text with a
      digit, and never reads a negative value. */
  function ParseDecimal(s: string): (r: Option<real>)
    ensures r.Some? ==> IsDecimalText(s) && HasDigit(s)
    ensures r.Some? ==> r.value >= 0.0
  {
    match Find(s, ".")
    case None =>
      if |s| > 0 && AllDigits(s) then
        assert IsDigit(s[0]);
        Some(DigitsValue(s) as real)
      else None
    case Some(i) =>
      var intPart, fracPart := s[..i], s[i + 1..];
      if AllDigits(intPart) && AllDigits(fracPart) && |intPart| + |fracPart| > 0 then
        DecimalParts(s, i);
        Some(DigitsValue(intPart) as real + DigitsValue(fracPart) as real / Pow10(|fracPart|) as real)
      else None
  }

  /** Digits, a '.' at `i`, and digits again, with a digit somewhere: decimal text. */
  lemma DecimalParts(s: string, i: nat)
    requires OccursAt(s, ".", i) && AllDigits(s[..i]) && AllDigits(s[i + 1..]) && |s| > 1
    ensures IsDecimalText(s) && HasDigit(s)
  {
    assert s[i] == s[i..i + 1][0] == '.';
    forall j | 0 <= j < |s| && j != i ensures IsDigit(s[j]) {
      if j < i { assert s[j] == s[..i][j]; } else { assert s[j] == s[i + 1..][j - i - 1]; }
    }
    if i > 0 { assert IsDigit(s[0]); } else { assert IsDigit(s[1]); }
  }

  /** On decimal text, `float()` fails exactly when there is no digit at all
      (the empty text or a lone '.'). */
  lemma ParseDecimalDefined(s: string)
    requires IsDecimalText(s)
    ensures ParseDecimal(s).Some? <==> HasDigit(s)
  {
    ContainsChar(s, '.');
    match Find(s, ".")
    case None =>
      assert AllDigits(s);
      if |s| > 0 { assert IsDigit(s[0]); }
    case Some(i) =>
      assert s[i..i + 1] == ".";
      assert s[i] == '.';
      assert AllDigits(s[..i]);
      assert AllDigits(s[i + 1..]) by {
        forall j | i + 1 <= j < |s| ensures IsDigit(s[j]) {
          assert s[j] != '.';
        }
      }
      if HasDigit(s) {
        var j :| 0 <= j < |s| && IsDigit(s[j]);
        assert j != i;
      }
      if |s[..i]| > 0 {
        assert IsDigit(s[0]);
      } else if |s[i + 1..]| > 0 {
        assert IsDigit(s[i + 1]) by { assert s[i + 1..][0] == s[i + 1]; }
      }
  }

  /** The source reads every number with its first captured character
      dropped. For example, the capture of `F1200` reads as 200, that of
      `E2.0` as 0, and a one-character capture cannot be read at all. */
  lemma FirstCharacterDropped()
    ensures ParseDecimal(DropFirst("1200")) == Some(200.0)
    ensures ParseDecimal(DropFirst("2.0")) == Some(0.0)
    ensures ParseDecimal(DropFirst("5")).None?
  {
    assert DropFirst("1200") == "200";
    ReadTwoHundred();
    assert DropFirst("2.0") == ".0";
    ReadPointZero();
    assert DropFirst("5") == "";
  }

  lemma ReadTwoHundred()
    ensures ParseDecimal("200") == Some(200.0)
  {
    assert Find("200", ".").None? by { ContainsChar("200", '.'); }
    assert DigitsValue("200") == 200 by {
      assert "200"[..2] == "20";
      assert "20"[..1] == "2";
      assert "2"[..0] == "";
    }
  }

  lemma ReadPointZero()
    ensures ParseDecimal(".0") == Some(0.0)
  {
    assert Find(".0", ".") == Some(0) by { FindCharAfter("", '.', "0"); assert "" + ['.'] + "0" == ".0"; }
    assert ".0"[..0] == "" && ".0"[1..] == "0";
    assert DigitsValue("0") == 0 by { assert "0"[..0] == ""; }
    assert AllDigits("") && AllDigits("0") && Pow10(1) == 10;
    assert ParseDecimal(".0") == Some(0.0 + 0.0 / 10.0);
  }

  function DigitChar(d: nat): (c: char)
    requires d < 10
    ensures IsDigit(c) && c as int - '0' as int == d
  {
    ('0' as int + d) as char
  }

  /** Digits as Python writes a whole number: at least one, and no leading
      `0` unless the number is 0 itself. */
  predicate CanonicalDigits(s: string) {
    |s| >= 1 && AllDigits(s) && (s[0] == '0' ==> |s| == 1)
  }

  /** Python's `str(n)` for a natural number. */
  function NatToString(n: nat): (r: string)
    ensures CanonicalDigits(r) && DigitsValue(r) == n
  {
    if n < 10 then
      var r := [DigitChar(n)];
      assert r[..0] == [];
      r
    else
      var front := NatToString(n / 10);
      var r := front + [DigitChar(n % 10)];
      assert r[..|r| - 1] == front;
      assert front[0] != '0' by {
        if |front| == 1 { assert DigitsValue(front) == DigitsValue(front[..0]) * 10 + (front[0] as int - '0' as int); }
      }
      assert r[0] == front[0];
      r
  }

  /** Python's `str(i)` for an integer: the canonical digits of its magnitude,
      after a `-` when it is negative. */
  function IntToString(i: int): (r: string)
    ensures i >= 0 ==> CanonicalDigits(r) && DigitsValue(r) == i
    ensures i < 0 ==> |r| > 1 && r[0] == '-' && CanonicalDigits(r[1..]) && DigitsValue(r[1..]) == -i
    ensures '\n' !in r
  {
    if i < 0 then
      var r := "-" + NatToString(-i);
      assert r[1..] == NatToString(-i);
      r
    else NatToString(i)
  }

  /** `n` written with exactly `k` digits, zero-padded on the left. */
  function Padded(n: nat, k: nat): (r: string)
    requires n < Pow10(k)
    ensures |r| == k && AllDigits(r) && DigitsValue(r) == n
  {
    if k == 0 then ""
    else
      var front := Padded(n / 10, k - 1);
      var r := front + [DigitChar(n % 10)];
      assert r[..|r| - 1] == front;
      r
  }

  /** The integer nearest to `y`, ties going to the even neighbour: the
      rounding Python's fixed-point formatting applies. */
  function RoundHalfEven(y: real): (n: nat)
    requires y >= 0.0
    ensures -0.5 <= n as real - y <= 0.5
    ensures (n as real - y == 0.5 || y - n as real == 0.5) ==> n % 2 == 0
  {
    var f := y.Floor;
    var frac := y - f as real;
    if frac < 0.5 then f
    else if frac > 0.5 then f + 1
    else if f % 2 == 0 then f
    else f + 1
  }

  function Abs(x: real): (r: real)
    ensures r >= 0.0 && (r == x || r == -x)
  {
    if x < 0.0 then -x else x
  }

  lemma ScaledMagnitude(x: real, k: nat)
    ensures Abs(x) * Pow10(k) as real >= 0.0
  {
    var p := Pow10(k) as real;
    assert p >= 1.0;
  }

  /** `|x|` rounded half to even to `k` decimals, in units of the last decimal. */
  function Rounded(x: real, k: nat): (q: nat)
    ensures -0.5 <= q as real - Abs(x) * Pow10(k) as real <= 0.5
    ensures (q as real - Abs(x) * Pow10(k) as real == 0.5 || Abs(x) * Pow10(k) as real - q as real == 0.5) ==> q % 2 == 0
  {
    ScaledMagnitude(x, k);
    RoundHalfEven(Abs(x) * Pow10(k) as real)
  }

  /** Text of digits, '.' and '-' only. */
  predicate IsNumeral(s: string) {
    forall i :: 0 <= i < |s| ==> IsDigit(s[i]) || s[i] == '.' || s[i] == '-'
  }

  lemma NumeralConcat(a: string, b: string)
    requires IsNumeral(a) && IsNumeral(b)
    ensures IsNumeral(a + b)
  {
    forall i | 0 <= i < |a + b| ensures IsDigit((a + b)[i]) || (a + b)[i] == '.' || (a + b)[i] == '-' {
      if i < |a| { assert (a + b)[i] == a[i]; } else { assert (a + b)[i] == b[i - |a|]; }
    }
  }

  /** An amount of `q` units of `10^-k`, written with exactly `k` digits after
      the point (no point when `k` is 0). */
  function FixedDigits(q: nat, k: nat): (r: string)
    ensures IsNumeral(r)
  {
    if k == 0 then
      var w := NatToString(q);
      assert IsNumeral(w);
      w
    else PointDigits(q, k)
  }

  lemma DivMod(q: nat, p: nat)
    requires p >= 1
    ensures q / p >= 0 && 0 <= q % p < p && q == (q / p) * p + q % p
  {
  }

  /** `FixedDigits` for `k > 0`: whole units, the point, `k` padded decimals. */
  function PointDigits(q: nat, k: nat): (r: string)
    requires k > 0
    ensures IsNumeral(r)
  {
    var p := Pow10(k);
    DivMod(q, p);
    var w := NatToString(q / p);
    var f := Padded(q % p, k);
    assert IsNumeral(w) && IsNumeral(f) && IsNumeral(".");
    NumeralConcat(w, ".");
    NumeralConcat(w + ".", f);
    w + "." + f
  }

  /** Python's `"{:.kf}".format(x)`: a '-' for a negative value, then the
      magnitude rounded half to even to `k` decimals. */
  function Fixed(x: real, k: nat): (r: string)
    ensures IsNumeral(r)
  {
    var sign := if x < 0.0 then "-" else "";
    var digits := FixedDigits(Rounded(x, k), k);
    assert IsNumeral(sign);
    NumeralConcat(sign, digits);
    sign + digits
  }

  /** The value `float()` reads from `str(a) + "." + <b padded to k digits>`. */
  lemma ReadFixedDigits(a: nat, b: nat, k: nat)
    requires 0 < k && b < Pow10(k)
    ensures ParseDecimal(NatToString(a) + "." + Padded(b, k))
         == Some(a as real + b as real / Pow10(k) as real)
  {
    var w, f := NatToString(a), Padded(b, k);
    var s := w + "." + f;
    assert s == w + ['.'] + f;
    assert '.' !in w by { assert forall i :: 0 <= i < |w| ==> IsDigit(w[i]); }
    FindCharAfter(w, '.', f);
    assert s[..|w|] == w;
    assert s[|w| + 1..] == f;
  }

  /** The value `float()` reads from `str(a)`. */
  lemma ReadNatDigits(a: nat)
    ensures ParseDecimal(NatToString(a)) == Some(a as real)
  {
    var w := NatToString(a);
    ContainsChar(w, '.');
    assert '.' !in w by { assert forall i :: 0 <= i < |w| ==> IsDigit(w[i]); }
  }

  /** `q / p` split into whole units and remainder. */
  lemma PointValue(a: int, b: int, p: int, q: int)
    requires p >= 1 && q == a * p + b
    ensures a as real + b as real / p as real == q as real / p as real
  {
    assert (a * p) as real == a as real * p as real;
  }

  /** `float()` reads `str(a) + "." + <b padded to k digits>` as `(a * 10^k + b) / 10^k`. */
  lemma PointTextValue(a: nat, b: nat, k: nat)
    requires 0 < k && b < Pow10(k)
    ensures ParseDecimal(NatToString(a) + "." + Padded(b, k))
         == Some((a * Pow10(k) + b) as real / Pow10(k) as real)
  {
    ReadFixedDigits(a, b, k);
    PointValue(a, b, Pow10(k), a * Pow10(k) + b);
  }

  /** `float()` reads `PointDigits(q, k)` as `q / 10^k`. */
  lemma PointDigitsReadBack(q: nat, k: nat)
    requires k > 0
    ensures ParseDecimal(PointDigits(q, k)) == Some(q as real / Pow10(k) as real)
  {
    var p := Pow10(k);
    DivMod(q, p);
    PointTextValue(q / p, q % p, k);
  }

  /** `float()` reads `FixedDigits(q, k)` as `q / 10^k`. */
  lemma FixedDigitsReadBack(q: nat, k: nat)
    ensures ParseDecimal(FixedDigits(q, k)) == Some(q as real / Pow10(k) as real)
  {
    if k == 0 {
      ReadNatDigits(q);
      assert Pow10(k) == 1;
      assert q as real / 1 as real == q as real;
    } else {
      PointDigitsReadBack(q, k);
    }
  }

  /** The unsigned text starts with a digit. */
  lemma FixedDigitsStart(q: nat, k: nat)
    ensures |FixedDigits(q, k)| > 0 && IsDigit(FixedDigits(q, k)[0])
  {
    if k == 0 {
      assert IsDigit(NatToString(q)[0]);
    } else {
      var p := Pow10(k);
      DivMod(q, p);
      var w := NatToString(q / p);
      assert IsDigit(w[0]);
      assert PointDigits(q, k) == w + "." + Padded(q % p, k);
    }
  }

  /** The unsigned text `"{:.kf}"` writes: the whole part in canonical digits,
      then, when `k > 0`, a single '.' and exactly `k` digits. */
  predicate FixedShape(m: string, k: nat) {
    if k == 0 then CanonicalDigits(m)
    else |m| > k + 1 && m[|m| - k - 1] == '.' && CanonicalDigits(m[..|m| - k - 1]) && AllDigits(m[|m| - k..])
  }

  lemma FixedDigitsShape(q: nat, k: nat)
    ensures FixedShape(FixedDigits(q, k), k)
  {
    if k > 0 {
      var p := Pow10(k);
      DivMod(q, p);
      var w, f := NatToString(q / p), Padded(q % p, k);
      var m := w + "." + f;
      assert PointDigits(q, k) == m;
      assert m[..|w|] == w && m[|w|] == '.' && m[|w| + 1..] == f;
    }
  }

  /** The text after a leading '-', if there is one. */
  function Unsigned(t: string): string
  {
    if |t| > 0 && t[0] == '-' then t[1..] else t
  }

  /** `text` is what `"{:.kf}"` writes for `x`: a '-' exactly when `x` is
      negative, then the fixed-point shape, whose digits `float()` reads back
      as the magnitude of `x` rounded to `k` decimals. */
  predicate FixedText(text: string, x: real, k: nat) {
    |text| > 0 && (text[0] == '-' <==> x < 0.0) &&
    FixedShape(Unsigned(text), k) &&
    ParseDecimal(Unsigned(text)) == Some(Rounded(x, k) as real / Pow10(k) as real)
  }

  /** `Fixed(x, k)` is a '-' exactly for a negative `x`, then the shape
      `"{:.kf}"` writes, whose digits read back (by `float()`) as the magnitude
      of `x` rounded to `k` decimals, `Rounded(x, k) / 10^k`: by the contract
      of `Rounded`, within half a unit of the last printed digit of `|x|`. */
  lemma FixedReadsBack(x: real, k: nat)
    ensures FixedText(Fixed(x, k), x, k)
  {
    var q := Rounded(x, k);
    var digits := FixedDigits(q, k);
    var text := Fixed(x, k);
    FixedDigitsStart(q, k);
    assert Unsigned(text) == digits by {
      if x < 0.0 {
        assert text == "-" + digits;
      } else {
        assert text == digits;
      }
    }
    FixedDigitsReadBack(q, k);
    FixedDigitsShape(q, k);
  }
}
