/**
 * Splitting a marketplace article into the supplier code and the pack quantity
 * written in brackets at its end: `UT-001(10)` is code `UT-001`, quantity 10.
 */
module Articles {
  import opened Sheet
  import opened Numbers

  /** The result of parsing an article: the code to look up and the bracketed quantity, if any. */
  datatype Parsed = Parsed(code: string, qty: Option<nat>)

  /**
   * The regular expression `^(.*?)\((\d+)\)$` matches `s` with its opening bracket at `p`:
   * `s` ends in `(digits)`, and the lazy group before the bracket does not cross a line
   * break (`.` does not match one). On a stripped string the `$` can only match at the end.
   */
  predicate MarkerAt(s: string, p: nat)
  {
    p + 2 < |s| && s[p] == '(' && s[|s| - 1] == ')' && AllDigits(s[p + 1..|s| - 1]) && '\n' !in s[..p]
  }

  /** The start of the run of digits that ends just before position `e`. */
  function DigitRunStart(s: string, e: nat): (k: nat)
    requires e <= |s|
    ensures k <= e && AllDigits(s[k..e])
    ensures k > 0 ==> !IsDigit(s[k - 1])
    decreases e
  {
    if e > 0 && IsDigit(s[e - 1]) then
      var k := DigitRunStart(s, e - 1);
      assert s[k..e] == s[k..e - 1] + [s[e - 1]];
      k
    else e
  }

  /** A digit run bounded by a non-digit at `p` starts right after `p`. */
  lemma {:induction false} DigitRunStartAfter(s: string, e: nat, p: nat)
    requires p < e <= |s| && !IsDigit(s[p]) && AllDigits(s[p + 1..e])
    ensures DigitRunStart(s, e) == p + 1
    decreases e
  {
    if e > p + 1 {
      assert IsDigit(s[p + 1..e][e - 1 - (p + 1)]);
      assert s[p + 1..e - 1] == s[p + 1..e][..e - 1 - (p + 1)];
      DigitRunStartAfter(s, e - 1, p);
    }
  }

  /** Where the regular expression places the bracket, if it matches at all. */
  function FindMarker(s: string): (r: Option<nat>)
    ensures r.Some? ==> MarkerAt(s, r.value)
  {
    if |s| < 3 || s[|s| - 1] != ')' then None
    else
      var k := DigitRunStart(s, |s| - 1);
      if 0 < k < |s| - 1 && s[k - 1] == '(' && '\n' !in s[..k - 1] then Some(k - 1) else None
  }

  /** The regular expression has at most one match, and `FindMarker` finds it. */
  lemma FindMarkerComplete(s: string, p: nat)
    requires MarkerAt(s, p)
    ensures FindMarker(s) == Some(p)
  {
    DigitRunStartAfter(s, |s| - 1, p);
  }

  /**
   * `parse_article_quantity`: strip the article; when it ends in a bracketed number, the code
   * is the stripped text before the bracket and the number is the quantity; otherwise the
   * code is the whole stripped article and there is no quantity. Either way the code
   * looked up has no surrounding whitespace.
   */
  function ParseArticle(raw: string): (r: Parsed)
    ensures Strip(r.code) == r.code
    ensures r.qty.None? ==> r.code == Strip(raw)
  {
    var s := Strip(raw);
    match FindMarker(s)
    case Some(p) => Parsed(Strip(s[..p]), Some(DigitsToNat(s[p + 1..|s| - 1])))
    case None => Parsed(s, None)
  }

  /** When the stripped article ends in `(digits)`, those digits are the quantity. */
  lemma ParseArticleMarker(raw: string, p: nat)
    requires MarkerAt(Strip(raw), p)
    ensures var s := Strip(raw);
      ParseArticle(raw) == Parsed(Strip(s[..p]), Some(DigitsToNat(s[p + 1..|s| - 1])))
  {
    FindMarkerComplete(Strip(raw), p);
  }

  /** Without a bracketed number at its end, the whole stripped article is the code. */
  lemma ParseArticleNoMarker(raw: string)
    requires forall p: nat :: !MarkerAt(Strip(raw), p)
    ensures ParseArticle(raw) == Parsed(Strip(raw), None)
  {
  }

  /**
   * Writing a code and a quantity as `code(qty)` and parsing it gives both back, for any
   * code without surrounding whitespace or line breaks (brackets inside the code included).
   */
  lemma ArticleRoundTrip(code: string, n: nat)
    requires Strip(code) == code && '\n' !in code
    ensures ParseArticle(code + "(" + NatToString(n) + ")") == Parsed(code, Some(n))
  {
    var digits := NatToString(n);
    var s := code + "(" + digits + ")";
    assert s[|code|] == '(' && s[|s| - 1] == ')';
    assert s[|code| + 1..|s| - 1] == digits;
    assert s[..|code|] == code;
    assert !IsSpace(s[0]) && !IsSpace(s[|s| - 1]) by {
      VisibleNotSpace(')');
      if code != [] {
        assert s[0] == code[0];
      } else {
        VisibleNotSpace('(');
      }
    }
    assert Strip(s) == s;
    assert MarkerAt(s, |code|);
    ParseArticleMarker(s, |code|);
    NatToStringRoundTrip(n);
  }

  /** An article without a bracketed quantity is looked up as it stands, minus surrounding spaces. */
  lemma PlainArticleExample(raw: string)
    requires raw == " UT-001 "
    ensures ParseArticle(raw) == Parsed("UT-001", None)
  {
    SpacesAreSpace();
    VisibleNotSpace('U');
    VisibleNotSpace('1');
    assert Strip(raw) == "UT-001" by {
      assert raw[1..][..|raw| - 2] == "UT-001";
      assert Strip(raw) == Strip(raw[1..]);
    }
  }

  /** Only the last bracket group counts: `A(1)(2)` is code `A(1)`, quantity 2. */
  lemma NestedBracketsExample(raw: string)
    requires raw == "A(1)(2)"
    ensures ParseArticle(raw) == Parsed("A(1)", Some(2))
  {
    assert raw[..4] == "A(1)" && raw[5..6] == "2";
    VisibleNotSpace('A');
    VisibleNotSpace(')');
    assert Strip(raw) == raw;
    assert Strip("A(1)") == "A(1)";
    assert DigitsToNat("2") == 2;
    ParseArticleMarker(raw, 4);
  }
}
