// The classes of the outbound dial policy, told by dial patterns instead of by
// the classifier's own tests.
module DialClasses {
  import opened Results
  import opened DialPatterns
  import opened DialLanguage
  import opened DialPolicy

  // ---------- Only a leading plus and the digits count ----------

  lemma {:induction false} DigitsConcat(a: string, b: string)
    ensures DigitsOnly(a + b) == DigitsOnly(a) + DigitsOnly(b)
  {
    if a == [] {
      assert a + b == b;
    } else {
      FirstApart(a, b);
      DigitsConcat(a[1..], b);
      DigitsStep(a[0], a[1..]);
      DigitsStep(a[0], a[1..] + b);
    }
  }

  lemma DigitsStep(c: char, s: string)
    ensures DigitsOnly([c] + s) == (if '0' <= c <= '9' then [c] else []) + DigitsOnly(s)
  {
    assert ([c] + s)[1..] == s;
  }

  // A separator between digits changes nothing.
  lemma SeparatorIgnored(a: string, c: char, b: string)
    ensures DigitsOnly(a + [c] + b) == DigitsOnly(a) + (if '0' <= c <= '9' then [c] else []) + DigitsOnly(b)
  {
    DigitsConcat(a + [c], b);
    DigitsConcat(a, [c]);
    DigitsStep(c, []);
  }

  lemma {:induction false} TrimStartKeepsDigits(s: string)
    ensures DigitsOnly(TrimStart(s)) == DigitsOnly(s)
  {
    if s != [] && IsBlank(s[0]) {
      TrimStartKeepsDigits(s[1..]);
    }
  }

  lemma {:induction false} TrimEndKeepsDigits(s: string)
    ensures DigitsOnly(TrimEnd(s)) == DigitsOnly(s)
  {
    if s != [] && IsBlank(s[|s| - 1]) {
      var n := |s| - 1;
      TrimEndKeepsDigits(s[..n]);
      assert s == s[..n] + [s[n]];
      DigitsConcat(s[..n], [s[n]]);
      DigitsStep(s[n], []);
    }
  }

  // The dialled digits are all the digits of the text.
  lemma DialledIsDigits(value: string)
    ensures Dialled(value) == DigitsOnly(value)
  {
    TrimStartKeepsDigits(value);
    TrimEndKeepsDigits(TrimStart(value));
  }

  // Blanks around a text without blanks at its ends are dropped, and nothing
  // else.
  lemma {:induction false} TrimExactly(before: string, text: string, after: string)
    requires forall i :: 0 <= i < |before| ==> IsBlank(before[i])
    requires forall i :: 0 <= i < |after| ==> IsBlank(after[i])
    requires text != [] && !IsBlank(text[0]) && !IsBlank(text[|text| - 1])
    ensures Trim(before + text + after) == text
    decreases |before|, |after|
  {
    var s := before + text + after;
    if before != [] {
      assert s[1..] == before[1..] + text + after;
      TrimExactly(before[1..], text, after);
    } else {
      assert s == text + after;
      TrimEndExactly(text, after);
    }
  }

  lemma {:induction false} TrimEndExactly(text: string, after: string)
    requires forall i :: 0 <= i < |after| ==> IsBlank(after[i])
    requires text != [] && !IsBlank(text[|text| - 1])
    ensures TrimEnd(text + after) == text
  {
    if after == [] {
      assert text + after == text;
    } else {
      var s, n := text + after, |after| - 1;
      assert s[..|s| - 1] == text + after[..n];
      TrimEndExactly(text, after[..n]);
    }
  }

  // ---------- Patterns for the classes ----------

  // A prefix and n more digits.
  function DialPattern(prefix: string, n: nat): string {
    "_" + prefix + Wild(n)
  }

  lemma {:induction false} WildPlain(n: nat)
    ensures '-' !in Wild(n)
  {
    if n > 0 {
      WildPlain(n - 1);
    }
  }

  lemma PatternShape(prefix: string, n: nat, digits: string)
    requires AllDigits(prefix) && AllDigits(digits)
    ensures InLanguage(DialPattern(prefix, n), digits) <==> Shaped(digits, prefix, n, n)
  {
    var pattern := DialPattern(prefix, n);
    WildPlain(n);
    assert forall i :: 0 <= i < |prefix| ==> IsDigit(prefix[i]);
    assert '-' !in prefix && '-' !in pattern;
    FixedLength(pattern, prefix, n, digits);
    AnyOfOne(pattern, digits);
  }

  const SEOUL_PREFIX := "02"

  const THREE_DIGIT_PREFIXES := [
    "031", "032", "033",
    "041", "042", "043", "044",
    "051", "052", "053", "054", "055",
    "061", "062", "063", "064",
    "010", "011", "016", "017", "018", "019",
    "070", "080"]

  ghost predicate DomesticPattern(prefix: string, digits: string) {
    InLanguage(DialPattern(prefix, 7), digits) || InLanguage(DialPattern(prefix, 8), digits)
  }

  ghost predicate DomesticByPatterns(digits: string) {
    || DomesticPattern(SEOUL_PREFIX, digits)
    || exists i :: 0 <= i < |THREE_DIGIT_PREFIXES| && DomesticPattern(THREE_DIGIT_PREFIXES[i], digits)
  }

  lemma DomesticPatternShape(prefix: string, digits: string)
    requires AllDigits(prefix) && AllDigits(digits)
    ensures DomesticPattern(prefix, digits) <==> Shaped(digits, prefix, 7, 8)
  {
    PatternShape(prefix, 7, digits);
    PatternShape(prefix, 8, digits);
  }

  ghost predicate StartsWith(digits: string, b: char, c: char) {
    10 <= |digits| <= 11 && digits[0] == '0' && digits[1] == b && digits[2] == c
  }

  lemma PrefixOfThree(prefix: string, digits: string)
    requires |prefix| == 3 && prefix[0] == '0'
    ensures Shaped(digits, prefix, 7, 8) <==> StartsWith(digits, prefix[1], prefix[2])
  {
  }

  ghost predicate AllThreeDigits(prefixes: seq<string>) {
    forall i :: 0 <= i < |prefixes| ==> AllDigits(prefixes[i]) && |prefixes[i]| == 3 && prefixes[i][0] == '0'
  }

  lemma PatternInList(prefixes: seq<string>, digits: string)
    requires AllDigits(digits) && AllThreeDigits(prefixes)
    ensures (exists i :: 0 <= i < |prefixes| && DomesticPattern(prefixes[i], digits)) <==>
      10 <= |digits| <= 11 && digits[0] == '0' && ['0', digits[1], digits[2]] in prefixes
  {
    forall i | 0 <= i < |prefixes|
      ensures DomesticPattern(prefixes[i], digits) <==>
        10 <= |digits| <= 11 && digits[0] == '0' && prefixes[i] == ['0', digits[1], digits[2]]
    {
      DomesticPatternShape(prefixes[i], digits);
      PrefixOfThree(prefixes[i], digits);
    }
  }

  // The second and third digit of a domestic number that is not from Seoul.
  predicate AreaDigits(b: char, c: char) {
    || (b == '3' && (c == '1' || c == '2' || c == '3'))
    || (b == '4' && (c == '1' || c == '2' || c == '3' || c == '4'))
    || (b == '5' && (c == '1' || c == '2' || c == '3' || c == '4' || c == '5'))
    || (b == '6' && (c == '1' || c == '2' || c == '3' || c == '4'))
    || (b == '1' && (c == '0' || c == '1' || c == '6' || c == '7' || c == '8' || c == '9'))
    || (b == '7' && c == '0')
    || (b == '8' && c == '0')
  }

  lemma AreaListed(b: char, c: char)
    ensures AreaDigits(b, c) <==> ['0', b, c] in THREE_DIGIT_PREFIXES
  {
  }

  // A number of ten or eleven digits from 0 on, by its next two digits.
  lemma DomesticByArea(digits: string)
    requires AllDigits(digits)
    ensures IsAllowedDomesticDialNumber(digits) <==>
      Shaped(digits, SEOUL_PREFIX, 7, 8)
      || (10 <= |digits| <= 11 && digits[0] == '0' && AreaDigits(digits[1], digits[2]))
  {
    PrefixOfThree("010", digits);
    PrefixOfThree("011", digits);
    PrefixOfThree("016", digits);
    PrefixOfThree("017", digits);
    PrefixOfThree("018", digits);
    PrefixOfThree("019", digits);
    PrefixOfThree("070", digits);
    PrefixOfThree("080", digits);
  }

  lemma AreaByPatterns(digits: string)
    requires AllDigits(digits)
    ensures (10 <= |digits| <= 11 && digits[0] == '0' && AreaDigits(digits[1], digits[2])) <==>
      exists i :: 0 <= i < |THREE_DIGIT_PREFIXES| && DomesticPattern(THREE_DIGIT_PREFIXES[i], digits)
  {
    assert AllThreeDigits(THREE_DIGIT_PREFIXES);
    PatternInList(THREE_DIGIT_PREFIXES, digits);
    if |digits| >= 3 {
      AreaListed(digits[1], digits[2]);
    }
  }

  lemma DomesticShape(digits: string)
    requires AllDigits(digits)
    ensures IsAllowedDomesticDialNumber(digits) <==> DomesticByPatterns(digits)
  {
    DomesticByArea(digits);
    AreaByPatterns(digits);
    DomesticPatternShape(SEOUL_PREFIX, digits);
  }

  // Two zeros and at least three more digits.
  ghost predicate InternationalByPatterns(digits: string) {
    InLanguage("_00XXX", digits) || InLanguage("_00XXX.", digits)
  }

  lemma InternationalPatternShape(digits: string)
    requires AllDigits(digits)
    ensures InternationalByPatterns(digits) <==> InternationalShape(digits)
  {
    assert Wild(2) == "XX" && Wild(3) == "XXX";
    PatternMatches("_00XXX", "00", 3, "", digits);
    PatternMatches("_00XXX.", "00", 3, ".", digits);
  }

  // The class of every text. With a leading plus it is international as soon as
  // it has a digit; without one each class is exactly the numbers some pattern
  // of it matches, and whatever no pattern matches is unsupported.
  lemma ClassesExactly(value: string)
    ensures var category, digits := ClassifyOutboundDialNumber(value), DigitsOnly(value);
      if StartsWithPlus(value) then category == if digits == [] then UNSUPPORTED else INTERNATIONAL
      else
        && (category == INTERNATIONAL <==> InternationalByPatterns(digits))
        && (category == PAID <==> MatchedByAny(PAID_PATTERNS, digits))
        && (category == REPRESENTATIVE <==> MatchedByAny(REPRESENTATIVE_PATTERNS, digits))
        && (category == DOMESTIC <==> DomesticByPatterns(digits))
  {
    DialledIsDigits(value);
    var digits := DigitsOnly(value);
    InternationalPatternShape(digits);
    PaidPatterns(digits);
    RepresentativePatterns(digits);
    DomesticShape(digits);
    ShapesDisjoint(digits);
  }

  // The default permissions allow domestic and representative numbers only.
  lemma DefaultAllows(value: string)
    ensures AssertOutboundDialAllowed(value, DEFAULT_OUTBOUND_DIAL_PERMISSIONS).Success? <==>
      !StartsWithPlus(value)
      && (DomesticByPatterns(DigitsOnly(value)) || MatchedByAny(REPRESENTATIVE_PATTERNS, DigitsOnly(value)))
  {
    ClassesExactly(value);
  }
}
