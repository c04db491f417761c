/**
 * The numeric normaliser of the cost stage (`to_float`): text written with
 * spaces, non-breaking spaces, a decimal comma or stray symbols becomes a
 * number, and anything Python's `float()` rejects becomes the caller's default.
 */
module Numbers {
  import opened Sheet

  const NBSP: char := '\U{A0}'

  predicate IsDigit(c: char) { '0' <= c <= '9' }

  predicate IsDigitOrDot(c: char) { IsDigit(c) || c == '.' }

  predicate AllDigits(s: string) { forall i :: 0 <= i < |s| ==> IsDigit(s[i]) }

  predicate HasDigit(s: string) { exists i :: 0 <= i < |s| && IsDigit(s[i]) }

  /** The characters Python's `str.isspace()` accepts, in code-point order. */
  const Whitespace: string :=
    "\t\n\U{0B}\U{0C}\r\U{1C}\U{1D}\U{1E}\U{1F} \U{85}\U{A0}\U{1680}"
    + "\U{2000}\U{2001}\U{2002}\U{2003}\U{2004}\U{2005}\U{2006}\U{2007}\U{2008}\U{2009}\U{200A}"
    + "\U{2028}\U{2029}\U{202F}\U{205F}\U{3000}"

  /** `c` occurs in `s`, looked for one character at a time. */
  predicate Occurs(c: char, s: string)
  {
    s != [] && (s[0] == c || Occurs(c, s[1..]))
  }

  lemma {:induction false} OccursIff(c: char, s: string)
    ensures Occurs(c, s) <==> c in s
  {
    if s != [] {
      OccursIff(c, s[1..]);
      assert s == [s[0]] + s[1..];
    }
  }

  /** Python's `str.isspace()`: the characters `str.strip()` removes. */
  predicate IsSpace(c: char)
  {
    Occurs(c, Whitespace)
  }

  /** No visible ASCII character (digits, letters, brackets, signs, separators) is whitespace. */
  lemma VisibleNotSpace(c: char)
    requires '!' <= c <= '~'
    ensures !IsSpace(c)
  {
    OccursIff(c, Whitespace);
  }

  /** The space and the non-breaking space are whitespace. */
  lemma SpacesAreSpace()
    ensures IsSpace(' ') && IsSpace(NBSP)
  {
    OccursIff(' ', Whitespace);
    OccursIff(NBSP, Whitespace);
  }

  /** Number of occurrences of `c` in `s`. */
  function Count(s: string, c: char): nat
  {
    if s == [] then 0 else (if s[0] == c then 1 else 0) + Count(s[1..], c)
  }

  lemma {:induction false} CountConcat(a: string, b: string, c: char)
    ensures Count(a + b, c) == Count(a, c) + Count(b, c)
  {
    if a != [] {
      assert (a + b)[1..] == a[1..] + b;
      CountConcat(a[1..], b, c);
    } else {
      assert a + b == b;
    }
  }

  // ---------------------------------------------------------------------------
  // str.strip()

  /** `str.strip()`: drop whitespace from both ends. */
  function Strip(s: string): (r: string)
    ensures r == [] || (!IsSpace(r[0]) && !IsSpace(r[|r| - 1]))
    ensures (s == [] || (!IsSpace(s[0]) && !IsSpace(s[|s| - 1]))) ==> r == s
  {
    if s != [] && IsSpace(s[0]) then Strip(s[1..])
    else if s != [] && IsSpace(s[|s| - 1]) then Strip(s[..|s| - 1])
    else s
  }

  /** Stripping only removes whitespace at both ends: `s` is `Strip(s)` framed by whitespace. */
  lemma {:induction false} StripFrame(s: string) returns (lead: string, trail: string)
    ensures s == lead + Strip(s) + trail
    ensures forall i :: 0 <= i < |lead| ==> IsSpace(lead[i])
    ensures forall i :: 0 <= i < |trail| ==> IsSpace(trail[i])
  {
    if s != [] && IsSpace(s[0]) {
      var l, t := StripFrame(s[1..]);
      var m := Strip(s[1..]);
      lead, trail := [s[0]] + l, t;
      calc {
        lead + Strip(s) + trail;
        ([s[0]] + l) + m + t;
        [s[0]] + (l + m + t);
        [s[0]] + s[1..];
        s;
      }
      assert forall i :: 1 <= i < |lead| ==> lead[i] == l[i - 1];
    } else if s != [] && IsSpace(s[|s| - 1]) {
      var init := s[..|s| - 1];
      var l, t := StripFrame(init);
      var m := Strip(init);
      lead, trail := l, t + [s[|s| - 1]];
      calc {
        lead + Strip(s) + trail;
        l + m + (t + [s[|s| - 1]]);
        (l + m + t) + [s[|s| - 1]];
        init + [s[|s| - 1]];
        s;
      }
      assert forall i :: 0 <= i < |t| ==> trail[i] == t[i];
    } else {
      lead, trail := [], [];
    }
  }

  lemma StripIdempotent(s: string)
    ensures Strip(Strip(s)) == Strip(s)
  {
  }

  // ---------------------------------------------------------------------------
  // The character-level steps of the normaliser

  /** `s.replace(c, "")` */
  function RemoveChar(s: string, c: char): (r: string)
    ensures |r| <= |s| && c !in r
  {
    if s == [] then [] else (if s[0] == c then [] else [s[0]]) + RemoveChar(s[1..], c)
  }

  /** `s.replace(a, b)` for single characters. */
  function ReplaceChar(s: string, a: char, b: char): (r: string)
    ensures |r| == |s|
    ensures forall i :: 0 <= i < |s| ==> r[i] == if s[i] == a then b else s[i]
  {
    seq(|s|, i requires 0 <= i < |s| => if s[i] == a then b else s[i])
  }

  /** `re.sub(r"[^\d\.]", "", s)` for ASCII digits. */
  function KeepDigitsAndDots(s: string): (r: string)
    ensures forall i :: 0 <= i < |r| ==> IsDigitOrDot(r[i])
  {
    if s == [] then [] else (if IsDigitOrDot(s[0]) then [s[0]] else []) + KeepDigitsAndDots(s[1..])
  }

  /** The string `to_float` hands to `float()` (cost_updater.py:12-14). */
  function Normalize(text: string): (r: string)
    ensures forall i :: 0 <= i < |r| ==> IsDigitOrDot(r[i])
  {
    KeepDigitsAndDots(ReplaceChar(RemoveChar(RemoveChar(Strip(text), NBSP), ' '), ',', '.'))
  }

  /** Comma-to-dot followed by the character filter: what the normaliser amounts to. */
  function Filtered(s: string): string
  {
    KeepDigitsAndDots(ReplaceChar(s, ',', '.'))
  }

  lemma {:induction false} KeepConcat(a: string, b: string)
    ensures KeepDigitsAndDots(a + b) == KeepDigitsAndDots(a) + KeepDigitsAndDots(b)
  {
    if a == [] {
      assert a + b == b;
    } else {
      assert (a + b)[1..] == a[1..] + b;
      KeepConcat(a[1..], b);
    }
  }

  lemma FilteredConcat(a: string, b: string)
    ensures Filtered(a + b) == Filtered(a) + Filtered(b)
  {
    var ra, rb, rab := ReplaceChar(a, ',', '.'), ReplaceChar(b, ',', '.'), ReplaceChar(a + b, ',', '.');
    forall i | 0 <= i < |rab| ensures rab[i] == (ra + rb)[i] {
      if i < |a| {
        assert (a + b)[i] == a[i];
      } else {
        assert (a + b)[i] == b[i - |a|];
      }
    }
    assert rab == ra + rb;
    KeepConcat(ReplaceChar(a, ',', '.'), ReplaceChar(b, ',', '.'));
  }

  /** Characters the normaliser drops entirely: neither digits, dots nor commas. */
  predicate Ignored(c: char) { !IsDigitOrDot(c) && c != ',' }

  lemma {:induction false} FilteredIgnored(s: string)
    requires forall i :: 0 <= i < |s| ==> Ignored(s[i])
    ensures Filtered(s) == []
  {
    if s != [] {
      FilteredConcat([s[0]], s[1..]);
      assert [s[0]] + s[1..] == s;
      FilteredSingle(s[0]);
      FilteredIgnored(s[1..]);
    }
  }

  lemma {:induction false} FilteredRemove(s: string, c: char)
    requires Ignored(c)
    ensures Filtered(RemoveChar(s, c)) == Filtered(s)
  {
    if s != [] {
      assert s == [s[0]] + s[1..];
      FilteredConcat([s[0]], s[1..]);
      FilteredConcat(if s[0] == c then [] else [s[0]], RemoveChar(s[1..], c));
      FilteredRemove(s[1..], c);
      FilteredSingle(s[0]);
    }
  }

  /**
   * Stripping and deleting spaces are subsumed by the final character filter:
   * the normalised text is the comma-to-dot, digits-and-dots projection of the input.
   */
  lemma NormalizeIsFiltered(text: string)
    ensures Normalize(text) == Filtered(text)
  {
    var t := Strip(text);
    var lead, trail := StripFrame(text);
    calc {
      Normalize(text);
      Filtered(RemoveChar(RemoveChar(t, NBSP), ' '));
      { FilteredRemove(RemoveChar(t, NBSP), ' '); }
      Filtered(RemoveChar(t, NBSP));
      { FilteredRemove(t, NBSP); }
      Filtered(t);
      { SpacesIgnored(lead); SpacesIgnored(trail); FilteredIgnored(lead); FilteredIgnored(trail); }
      Filtered(lead) + Filtered(t) + Filtered(trail);
      { FilteredConcat(lead, t); FilteredConcat(lead + t, trail); }
      Filtered(text);
    }
  }

  /** Whitespace is neither a digit, a dot nor a comma. */
  lemma SpacesIgnored(s: string)
    requires forall i :: 0 <= i < |s| ==> IsSpace(s[i])
    ensures forall i :: 0 <= i < |s| ==> Ignored(s[i])
  {
    forall i | 0 <= i < |s|
      ensures Ignored(s[i])
    {
      if !Ignored(s[i]) {
        VisibleNotSpace(s[i]);
      }
    }
  }

  /** Separators, currency signs, minus signs and letters anywhere in the text are ignored. */
  lemma NormalizeIgnores(a: string, c: char, b: string)
    requires Ignored(c)
    ensures Normalize(a + [c] + b) == Normalize(a + b)
  {
    calc {
      Normalize(a + [c] + b);
      { NormalizeIsFiltered(a + [c] + b); }
      Filtered(a + [c] + b);
      { FilteredConcat(a + [c], b); FilteredConcat(a, [c]); }
      Filtered(a) + Filtered([c]) + Filtered(b);
      { FilteredIgnored([c]); }
      Filtered(a) + Filtered(b);
      { FilteredConcat(a, b); }
      Filtered(a + b);
      { NormalizeIsFiltered(a + b); }
      Normalize(a + b);
    }
  }

  lemma FilteredSingle(x: char)
    ensures Filtered([x]) == if x == ',' || x == '.' then "." else if IsDigit(x) then [x] else []
  {
    var y := if x == ',' then '.' else x;
    assert ReplaceChar([x], ',', '.') == [y];
    assert [y][1..] == [];
    assert KeepDigitsAndDots([y]) == (if IsDigitOrDot(y) then [y] else []) + KeepDigitsAndDots([]);
  }

  /** Every comma and every dot of the input becomes a dot of the normalised text. */
  lemma {:induction false} FilteredDots(s: string)
    ensures Count(Filtered(s), '.') == Count(s, ',') + Count(s, '.')
  {
    if s != [] {
      assert s == [s[0]] + s[1..];
      FilteredConcat([s[0]], s[1..]);
      CountConcat(Filtered([s[0]]), Filtered(s[1..]), '.');
      FilteredSingle(s[0]);
      FilteredDots(s[1..]);
    }
  }

  // ---------------------------------------------------------------------------
  // Decimal digits

  function DigitValue(c: char): nat
    requires IsDigit(c)
  {
    (c - '0') as nat
  }

  function DigitChar(d: nat): (c: char)
    requires d < 10
    ensures IsDigit(c) && DigitValue(c) == d
  {
    '0' + d as char
  }

  /** The value of a string of decimal digits (leading zeros allowed, as in `int()`). */
  function DigitsToNat(s: string): nat
    requires AllDigits(s)
  {
    if s == [] then 0 else DigitsToNat(s[..|s| - 1]) * 10 + DigitValue(s[|s| - 1])
  }

  /** `str(n)` for a natural number: decimal digits without leading zeros. */
  function NatToString(n: nat): (s: string)
    ensures |s| > 0 && AllDigits(s)
    ensures |s| > 1 ==> s[0] != '0'
  {
    if n < 10 then [DigitChar(n)] else NatToString(n / 10) + [DigitChar(n % 10)]
  }

  lemma {:induction false} NatToStringRoundTrip(n: nat)
    ensures DigitsToNat(NatToString(n)) == n
  {
    if n >= 10 {
      var s := NatToString(n);
      assert s[..|s| - 1] == NatToString(n / 10);
      NatToStringRoundTrip(n / 10);
    }
  }

  /** The value of the digits after a decimal point: "05" is 0.05. */
  function FracValue(s: string): (r: real)
    requires AllDigits(s)
    ensures 0.0 <= r <= 1.0
  {
    if s == [] then 0.0 else (DigitValue(s[0]) as real + FracValue(s[1..])) / 10.0
  }

  // ---------------------------------------------------------------------------
  // Python's float() on strings of digits and dots

  /** Position of the first dot, or `|s|` when there is none. */
  function DotIndex(s: string): (p: nat)
    ensures p <= |s|
  {
    if s == [] || s[0] == '.' then 0 else 1 + DotIndex(s[1..])
  }

  /** `DotIndex` finds the first dot: none before it, and a dot at it unless it is the end. */
  lemma {:induction false} DotIndexFirst(s: string)
    ensures var p := DotIndex(s);
      && (forall i :: 0 <= i < p ==> s[i] != '.')
      && (p < |s| ==> s[p] == '.')
  {
    if s != [] && s[0] != '.' {
      DotIndexFirst(s[1..]);
      assert forall i :: 1 <= i < |s| ==> s[i] == s[1..][i - 1];
    }
  }

  /**
   * The strings `float()` accepts among those the normaliser produces:
   * `digits`, `digits.`, `.digits` and `digits.digits`.
   */
  predicate FloatSyntax(s: string)
  {
    var p := DotIndex(s);
    if p == |s| then s != [] && AllDigits(s)
    else AllDigits(s[..p]) && AllDigits(s[p + 1..]) && |s| > 1
  }

  /** `float(s)` on text the normaliser produces; None where `float()` raises. */
  function ParseFloat(s: string): (r: Option<real>)
    ensures r.Some? ==> r.value >= 0.0
  {
    if !FloatSyntax(s) then None
    else
      var p := DotIndex(s);
      if p == |s| then Some(DigitsToNat(s) as real)
      else
        var whole, frac := s[..p], s[p + 1..];
        Some(DigitsToNat(whole) as real + FracValue(frac))
  }

  lemma {:induction false} NoDotsAllDigits(s: string)
    requires forall i :: 0 <= i < |s| ==> IsDigitOrDot(s[i])
    ensures Count(s, '.') == 0 <==> AllDigits(s)
  {
    if s != [] {
      NoDotsAllDigits(s[1..]);
      assert forall i :: 1 <= i < |s| ==> s[1..][i - 1] == s[i];
    }
  }

  lemma CountSplit(s: string, p: nat, c: char)
    requires p <= |s|
    ensures Count(s, c) == Count(s[..p], c) + Count(s[p..], c)
  {
    assert s == s[..p] + s[p..];
    CountConcat(s[..p], s[p..], c);
  }

  /** Splitting at the first dot: digits before it, and the dots counted after it. */
  lemma DotSplit(s: string)
    requires forall i :: 0 <= i < |s| ==> IsDigitOrDot(s[i])
    requires DotIndex(s) < |s|
    ensures var p := DotIndex(s);
      && AllDigits(s[..p])
      && Count(s, '.') == 1 + Count(s[p + 1..], '.')
  {
    var p := DotIndex(s);
    DotIndexFirst(s);
    var whole := s[..p];
    assert AllDigits(whole) by {
      forall i | 0 <= i < |whole| ensures IsDigit(whole[i]) {
        assert whole[i] == s[i];
      }
    }
    NoDotsAllDigits(whole);
    CountSplit(s, p, '.');
    assert s[p..][1..] == s[p + 1..];
  }

  /** On digits and dots, `float()` succeeds exactly when there is a digit and at most one dot. */
  lemma FloatSyntaxIff(s: string)
    requires forall i :: 0 <= i < |s| ==> IsDigitOrDot(s[i])
    ensures FloatSyntax(s) <==> Count(s, '.') <= 1 && HasDigit(s)
  {
    var p := DotIndex(s);
    DotIndexFirst(s);
    NoDotsAllDigits(s);
    if p < |s| {
      var frac := s[p + 1..];
      DotSplit(s);
      assert forall i :: 0 <= i < |frac| ==> frac[i] == s[p + 1 + i];
      NoDotsAllDigits(frac);
      if FloatSyntax(s) {
        if p > 0 {
          assert IsDigit(s[0]);
        } else {
          assert IsDigit(s[1]);
        }
      }
      if HasDigit(s) && Count(s, '.') <= 1 {
        var i :| 0 <= i < |s| && IsDigit(s[i]);
        assert i != p;
      }
    } else {
      if HasDigit(s) {
        assert s != [];
      }
    }
  }

  // ---------------------------------------------------------------------------
  // to_float

  /**
   * `to_float(v, default)` (cost_updater.py:9-18): None for a blank cell
   * (its text is "nan", which the filter empties); never raises.
   */
  function ToFloat(v: Cell, default: Float): (r: Float)
    ensures v.None? ==> r == default
    ensures r == default || (r.Num? && r.r >= 0.0)
  {
    match v
    case None => default
    case Some(text) =>
      match ParseFloat(Normalize(text))
      case Some(x) => Num(x)
      case None => default
  }

  /**
   * The result is a parsed number exactly when the normalised text has a digit
   * and at most one dot; otherwise it is the default.
   */
  lemma ToFloatParsesIff(text: string, default: Float)
    ensures var n := Normalize(text);
      && (ToFloat(Some(text), NaN).Num? <==> Count(n, '.') <= 1 && HasDigit(n))
      && (!(Count(n, '.') <= 1 && HasDigit(n)) ==> ToFloat(Some(text), default) == default)
  {
    FloatSyntaxIff(Normalize(text));
  }

  /** Text with two or more separators (commas or dots, e.g. "1,200.00") falls back to the default. */
  lemma TwoSeparatorsGiveDefault(text: string, default: Float)
    requires Count(text, ',') + Count(text, '.') >= 2
    ensures ToFloat(Some(text), default) == default
  {
    NormalizeIsFiltered(text);
    FilteredDots(text);
    FloatSyntaxIff(Normalize(text));
  }

  lemma DotIndexAfterDigits(whole: string, frac: string)
    requires AllDigits(whole)
    ensures var n := whole + "." + frac;
      DotIndex(n) == |whole| && n[..|whole|] == whole && n[|whole| + 1..] == frac
  {
    var n := whole + "." + frac;
    DotIndexFirst(n);
    assert n[|whole|] == '.';
    assert forall i :: 0 <= i < |whole| ==> n[i] == whole[i];
  }

  /**
   * `float("digits.digits")` is the decimal value of the two digit strings; either side may
   * be empty but not both (".5" is 0.5, "5." is 5).
   */
  lemma ParseDecimal(whole: string, frac: string)
    requires AllDigits(whole) && AllDigits(frac) && (whole != [] || frac != [])
    ensures ParseFloat(whole + "." + frac) == Some(DigitsToNat(whole) as real + FracValue(frac))
  {
    var n := whole + "." + frac;
    DotIndexAfterDigits(whole, frac);
    ParseFloatAt(n, |whole|);
  }

  /** With its first dot at `p` and digits on both sides, `float(s)` adds the two parts. */
  lemma ParseFloatAt(s: string, p: nat)
    requires p < |s| && DotIndex(s) == p && |s| > 1
    requires AllDigits(s[..p]) && AllDigits(s[p + 1..])
    ensures ParseFloat(s) == Some(DigitsToNat(s[..p]) as real + FracValue(s[p + 1..]))
  {
  }

  /** The normaliser turns a decimal comma into a dot and leaves the digits alone. */
  lemma NormalizeDecimalComma(whole: string, frac: string)
    requires AllDigits(whole) && AllDigits(frac)
    ensures Normalize(whole + "," + frac) == whole + "." + frac
  {
    var text := whole + "," + frac;
    calc {
      Normalize(text);
      { NormalizeIsFiltered(text); }
      Filtered(text);
      { FilteredConcat(whole + ",", frac); FilteredConcat(whole, ","); }
      Filtered(whole) + Filtered(",") + Filtered(frac);
      { AllDigitsFiltered(whole); AllDigitsFiltered(frac); FilteredSingle(','); }
      whole + "." + frac;
    }
  }

  /** A decimal-comma number ("1200,50", or ",50" for 0.5) parses to its value. */
  lemma ToFloatDecimalComma(whole: string, frac: string, default: Float)
    requires AllDigits(whole) && AllDigits(frac) && (whole != [] || frac != [])
    ensures ToFloat(Some(whole + "," + frac), default) == Num(DigitsToNat(whole) as real + FracValue(frac))
  {
    NormalizeDecimalComma(whole, frac);
    ParseDecimal(whole, frac);
  }

  /** A decimal comma with no digits before it still reads as a fraction: ",5" is 0.5. */
  lemma LeadingCommaExample(frac: string)
    requires frac == "5"
    ensures ToFloat(Some("," + frac), NaN) == Num(0.5)
  {
    ToFloatDecimalComma("", frac, NaN);
    assert "" + "," + frac == "," + frac;
    assert frac[1..] == "";
  }

  lemma {:induction false} AllDigitsFiltered(s: string)
    requires AllDigits(s)
    ensures Filtered(s) == s
  {
    if s != [] {
      assert s == [s[0]] + s[1..];
      FilteredConcat([s[0]], s[1..]);
      FilteredSingle(s[0]);
      AllDigitsFiltered(s[1..]);
    }
  }

  /** `str(n)` parses back to `n`. */
  lemma ToFloatNatRoundTrip(n: nat, default: Float)
    ensures ToFloat(Some(NatToString(n)), default) == Num(n as real)
  {
    var s := NatToString(n);
    NormalizeIsFiltered(s);
    AllDigitsFiltered(s);
    NatToStringRoundTrip(n);
    DotIndexFirst(s);
    assert DotIndex(s) == |s|;
  }

  lemma DigitsExample()
    ensures DigitsToNat("1200") == 1200 && DigitsToNat("00") == 0
  {
    assert "1200"[..3] == "120" && "120"[..2] == "12" && "12"[..1] == "1" && "1"[..0] == "";
    assert "00"[..1] == "0" && "0"[..0] == "";
  }

  /** A separator, currency sign or other ignored character does not change the value. */
  lemma ToFloatIgnores(a: string, c: char, b: string, default: Float)
    requires Ignored(c)
    ensures ToFloat(Some(a + [c] + b), default) == ToFloat(Some(a + b), default)
  {
    NormalizeIgnores(a, c, b);
  }

  /** "1 200,00" is 1200: the space is a thousands separator, the comma the decimal point. */
  lemma ToFloatGroupedExample(thousands: string, rest: string, frac: string)
    requires thousands == "1" && rest == "200" && frac == "00"
    ensures ToFloat(Some(thousands + " " + rest + "," + frac), NaN) == Num(1200.0)
  {
    var whole, tail := thousands + rest, rest + "," + frac;
    assert whole == "1200";
    calc {
      ToFloat(Some(thousands + " " + rest + "," + frac), NaN);
      { assert thousands + " " + rest + "," + frac == thousands + [' '] + tail; }
      ToFloat(Some(thousands + [' '] + tail), NaN);
      { ToFloatIgnores(thousands, ' ', tail, NaN); }
      ToFloat(Some(thousands + tail), NaN);
      { assert thousands + tail == whole + "," + frac; }
      ToFloat(Some(whole + "," + frac), NaN);
      { ToFloatDecimalComma(whole, frac, NaN); DigitsExample(); }
      Num(1200.0);
    }
  }

  /** "1,200.00" has two separators, so the default comes back, not 1200. */
  lemma ToFloatCommaThousandsExample(default: Float)
    ensures ToFloat(Some("1,200.00"), default) == default
  {
    assert Count("1,200.00", ',') == 1;
    assert Count("1,200.00", '.') == 1;
    TwoSeparatorsGiveDefault("1,200.00", default);
  }

  /** The minus sign is filtered out with the other symbols: "-5" reads as 5. */
  lemma ToFloatDropsSign(text: string, default: Float)
    ensures ToFloat(Some("-" + text), default) == ToFloat(Some(text), default)
  {
    ToFloatIgnores([], '-', text, default);
    assert [] + ['-'] + text == "-" + text;
    assert [] + text == text;
  }
}
