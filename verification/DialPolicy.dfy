// The outbound dial policy: the class of a number, the permissions that decide
// it, and the dialplan patterns that are to block what the policy denies.
module DialPolicy {
  import opened Results
  import opened DialPatterns

  datatype Category = DOMESTIC | REPRESENTATIVE | PAID | INTERNATIONAL | UNSUPPORTED

  datatype Permissions = Permissions(domestic: bool, representative: bool, paid: bool, international: bool)

  const DEFAULT_OUTBOUND_DIAL_PERMISSIONS := Permissions(true, true, false, false)

  const INTERNATIONAL_PATTERNS := ["_00."]
  const PAID_PATTERNS := ["_060XXXXXXX", "_060XXXXXXXX"]
  const REPRESENTATIVE_PATTERNS := ["_15XXXXXX", "_16XXXXXX", "_18XXXXXX"]
  const DOMESTIC_PATTERNS := ["_0X."]

  // ---------- Classification ----------

  function DigitsOnly(s: string): (r: string)
    ensures AllDigits(r)
  {
    if s == [] then [] else (if IsDigit(s[0]) then [s[0]] else []) + DigitsOnly(s[1..])
  }

  predicate IsBlank(c: char) {
    c == ' ' || '\U{9}' <= c <= '\U{D}' || c == '\U{A0}' || c == '\U{1680}' || '\U{2000}' <= c <= '\U{200A}'
    || c == '\U{2028}' || c == '\U{2029}' || c == '\U{202F}' || c == '\U{205F}' || c == '\U{3000}' || c == '\U{FEFF}'
  }

  function TrimStart(s: string): string {
    if s != [] && IsBlank(s[0]) then TrimStart(s[1..]) else s
  }

  function TrimEnd(s: string): string {
    if s != [] && IsBlank(s[|s| - 1]) then TrimEnd(s[..|s| - 1]) else s
  }

  function Trim(s: string): string {
    TrimEnd(TrimStart(s))
  }

  // ^prefix\d{low,high}$ on a string of digits.
  predicate Shaped(digits: string, prefix: string, low: nat, high: nat) {
    prefix <= digits && |prefix| + low <= |digits| <= |prefix| + high
  }

  predicate InternationalShape(digits: string) {
    "00" <= digits && |digits| >= 5
  }

  predicate PaidShape(digits: string) {
    Shaped(digits, "060", 7, 8)
  }

  predicate RepresentativeShape(digits: string) {
    Shaped(digits, "15", 6, 6) || Shaped(digits, "16", 6, 6) || Shaped(digits, "18", 6, 6)
  }

  predicate IsAllowedDomesticDialNumber(digits: string) {
    || Shaped(digits, "02", 7, 8)
    || (|digits| >= 3 && digits[0] == '0' && 10 <= |digits| <= 11
        && ((digits[1] == '3' && '1' <= digits[2] <= '3')
            || (digits[1] == '4' && '1' <= digits[2] <= '4')
            || (digits[1] == '5' && '1' <= digits[2] <= '5')
            || (digits[1] == '6' && '1' <= digits[2] <= '4')))
    || Shaped(digits, "010", 7, 8) || Shaped(digits, "011", 7, 8) || Shaped(digits, "016", 7, 8)
    || Shaped(digits, "017", 7, 8) || Shaped(digits, "018", 7, 8) || Shaped(digits, "019", 7, 8)
    || Shaped(digits, "070", 7, 8)
    || Shaped(digits, "080", 7, 8)
  }

  predicate StartsWithPlus(value: string) {
    "+" <= Trim(value)
  }

  function ClassifyDigits(digits: string): Category {
    if digits == [] then UNSUPPORTED
    else if InternationalShape(digits) then INTERNATIONAL
    else if PaidShape(digits) then PAID
    else if RepresentativeShape(digits) then REPRESENTATIVE
    else if IsAllowedDomesticDialNumber(digits) then DOMESTIC
    else UNSUPPORTED
  }

  function ClassifyOutboundDialNumber(value: string): Category {
    var raw := Trim(value);
    var digits := DigitsOnly(raw);
    if raw == [] || digits == [] then UNSUPPORTED
    else if "+" <= raw then INTERNATIONAL
    else ClassifyDigits(digits)
  }

  predicate Permits(p: Permissions, category: Category) {
    match category
    case INTERNATIONAL => p.international
    case PAID => p.paid
    case REPRESENTATIVE => p.representative
    case DOMESTIC => p.domestic
    case UNSUPPORTED => false
  }

  // The category when the call is allowed, and the category that denies it.
  function AssertOutboundDialAllowed(value: string, p: Permissions): Result<Category, Category> {
    var category := ClassifyOutboundDialNumber(value);
    if Permits(p, category) then Success(category) else Failure(category)
  }

  method GetBlockedOutboundDialplanPatterns(p: Permissions) returns (patterns: seq<string>)
    ensures patterns == BlockedPatterns(p)
  {
    patterns := [];
    if !p.international {
      patterns := patterns + INTERNATIONAL_PATTERNS;
    }
    if !p.paid {
      patterns := patterns + PAID_PATTERNS;
    }
    if !p.representative {
      patterns := patterns + REPRESENTATIVE_PATTERNS;
    }
    if !p.domestic {
      patterns := patterns + DOMESTIC_PATTERNS;
    }
  }

  function BlockedPatterns(p: Permissions): seq<string> {
    (if p.international then [] else INTERNATIONAL_PATTERNS)
    + (if p.paid then [] else PAID_PATTERNS)
    + (if p.representative then [] else REPRESENTATIVE_PATTERNS)
    + (if p.domestic then [] else DOMESTIC_PATTERNS)
  }

  ghost predicate MatchedByAny(patterns: seq<string>, digits: string) {
    exists i :: 0 <= i < |patterns| && InLanguage(patterns[i], digits)
  }

  // ---------- What patterns of this form match ----------

  function Wild(n: nat): string {
    if n == 0 then "" else "X" + Wild(n - 1)
  }

  ghost predicate BodyMatches(body: string, value: string) {
    Matches(Tokenize(body), value)
  }

  lemma WildStep(rest: string, value: string)
    ensures BodyMatches("X" + rest, value) <==> value != [] && IsDigit(value[0]) && BodyMatches(rest, value[1..])
  {
    assert ("X" + rest)[1..] == rest;
    MatchesCons(DigitFrom('0', '9'), Tokenize(rest), value);
  }

  lemma LiteralStep(c: char, rest: string, value: string)
    requires IsDigit(c)
    ensures BodyMatches([c] + rest, value) <==> value != [] && value[0] == c && BodyMatches(rest, value[1..])
  {
    assert ([c] + rest)[1..] == rest;
    MatchesCons(Literal(c), Tokenize(rest), value);
  }

  lemma {:induction false} WildMatches(n: nat, tail: string, value: string)
    requires tail == "" || tail == "."
    ensures BodyMatches(Wild(n) + tail, value) <==>
      (if tail == "" then |value| == n else |value| > n) && AllDigits(value)
  {
    if n > 0 {
      assert Wild(n) + tail == "X" + (Wild(n - 1) + tail);
      WildStep(Wild(n - 1) + tail, value);
      if value != [] {
        WildMatches(n - 1, tail, value[1..]);
        assert value == [value[0]] + value[1..];
      }
    } else {
      assert Wild(0) + tail == tail;
      AtTail(tail, value);
    }
  }

  lemma AtTail(tail: string, value: string)
    requires tail == "" || tail == "."
    ensures BodyMatches(tail, value) <==> (if tail == "" then value == "" else value != "") && AllDigits(value)
  {
    if tail == "." {
      assert FirstRest(Tokenize(tail)) == 0;
    } else {
      assert Tokenize(tail) == [];
    }
  }

  lemma {:induction false} PrefixMatches(prefix: string, rest: string, value: string)
    requires AllDigits(prefix)
    ensures BodyMatches(prefix + rest, value) <==> prefix <= value && BodyMatches(rest, value[|prefix|..])
  {
    if prefix == [] {
      assert prefix + rest == rest && value[0..] == value;
    } else {
      assert prefix + rest == [prefix[0]] + (prefix[1..] + rest);
      LiteralStep(prefix[0], prefix[1..] + rest, value);
      if value != [] {
        PrefixMatches(prefix[1..], rest, value[1..]);
        PrefixSplit(prefix, value);
      }
    }
  }

  lemma PrefixSplit(prefix: string, value: string)
    requires prefix != [] && value != []
    ensures prefix <= value <==> prefix[0] == value[0] && prefix[1..] <= value[1..]
    ensures prefix <= value ==> value[1..][|prefix[1..]|..] == value[|prefix|..]
  {
    assert prefix == [prefix[0]] + prefix[1..] && value == [value[0]] + value[1..];
  }

  // A pattern of digits, n wildcards and perhaps a dot.
  lemma PatternMatches(pattern: string, prefix: string, n: nat, tail: string, digits: string)
    requires AllDigits(prefix) && AllDigits(digits) && (tail == "" || tail == ".")
    requires pattern == "_" + prefix + Wild(n) + tail && '-' !in pattern
    ensures InLanguage(pattern, digits) <==>
      prefix <= digits && if tail == "" then |digits| == |prefix| + n else |digits| > |prefix| + n
  {
    assert pattern[1..] == prefix + (Wild(n) + tail);
    NoHyphens(pattern[1..]);
    PrefixMatches(prefix, Wild(n) + tail, digits);
    if prefix <= digits {
      WildMatches(n, tail, digits[|prefix|..]);
    }
  }

  // ---------- What the dialplan blocks ----------

  lemma AnyOfOne(a: string, digits: string)
    ensures MatchedByAny([a], digits) <==> InLanguage(a, digits)
  {
    assert [a][0] == a;
  }

  lemma {:induction false} AnyOfConcat(x: seq<string>, y: seq<string>, digits: string)
    ensures MatchedByAny(x + y, digits) <==> MatchedByAny(x, digits) || MatchedByAny(y, digits)
  {
    forall i | 0 <= i < |x| ensures (x + y)[i] == x[i] {}
    forall i | 0 <= i < |y| ensures (x + y)[|x| + i] == y[i] {}
  }

  lemma WildLiterals()
    ensures Wild(1) == "X" && Wild(6) == "XXXXXX" && Wild(7) == "XXXXXXX" && Wild(8) == "XXXXXXXX"
  {
    assert Wild(2) == "XX";
    assert Wild(4) == "XXXX";
    assert Wild(6) == "XXXXXX";
  }

  lemma InternationalPatterns(digits: string)
    requires AllDigits(digits)
    ensures MatchedByAny(INTERNATIONAL_PATTERNS, digits) <==> "00" <= digits && |digits| >= 3
  {
    PatternMatches("_00.", "00", 0, ".", digits);
    AnyOfOne("_00.", digits);
  }

  lemma DomesticPatterns(digits: string)
    requires AllDigits(digits)
    ensures MatchedByAny(DOMESTIC_PATTERNS, digits) <==> "0" <= digits && |digits| >= 3
  {
    WildLiterals();
    PatternMatches("_0X.", "0", 1, ".", digits);
    AnyOfOne("_0X.", digits);
  }

  lemma FixedLength(pattern: string, prefix: string, n: nat, digits: string)
    requires AllDigits(prefix) && AllDigits(digits)
    requires pattern == "_" + prefix + Wild(n) && '-' !in pattern
    ensures MatchedByAny([pattern], digits) <==> Shaped(digits, prefix, n, n)
  {
    assert pattern == "_" + prefix + Wild(n) + "";
    PatternMatches(pattern, prefix, n, "", digits);
    AnyOfOne(pattern, digits);
  }

  lemma PaidPatterns(digits: string)
    requires AllDigits(digits)
    ensures MatchedByAny(PAID_PATTERNS, digits) <==> PaidShape(digits)
  {
    WildLiterals();
    FixedLength("_060XXXXXXX", "060", 7, digits);
    FixedLength("_060XXXXXXXX", "060", 8, digits);
    assert PAID_PATTERNS == ["_060XXXXXXX"] + ["_060XXXXXXXX"];
    AnyOfConcat(["_060XXXXXXX"], ["_060XXXXXXXX"], digits);
  }

  lemma RepresentativePatterns(digits: string)
    requires AllDigits(digits)
    ensures MatchedByAny(REPRESENTATIVE_PATTERNS, digits) <==> RepresentativeShape(digits)
  {
    WildLiterals();
    FixedLength("_15XXXXXX", "15", 6, digits);
    FixedLength("_16XXXXXX", "16", 6, digits);
    FixedLength("_18XXXXXX", "18", 6, digits);
    assert REPRESENTATIVE_PATTERNS == ["_15XXXXXX"] + ["_16XXXXXX"] + ["_18XXXXXX"];
    AnyOfConcat(["_15XXXXXX"] + ["_16XXXXXX"], ["_18XXXXXX"], digits);
    AnyOfConcat(["_15XXXXXX"], ["_16XXXXXX"], digits);
  }

  // Exactly what the generated patterns block, for any permissions.
  lemma BlockedExactly(p: Permissions, digits: string)
    requires AllDigits(digits)
    ensures MatchedByAny(BlockedPatterns(p), digits) <==>
      || (!p.international && "00" <= digits && |digits| >= 3)
      || (!p.paid && PaidShape(digits))
      || (!p.representative && RepresentativeShape(digits))
      || (!p.domestic && "0" <= digits && |digits| >= 3)
  {
    var a := if p.international then [] else INTERNATIONAL_PATTERNS;
    var b := if p.paid then [] else PAID_PATTERNS;
    var c := if p.representative then [] else REPRESENTATIVE_PATTERNS;
    var d := if p.domestic then [] else DOMESTIC_PATTERNS;
    AnyOfConcat(a + b + c, d, digits);
    AnyOfConcat(a + b, c, digits);
    AnyOfConcat(a, b, digits);
    InternationalPatterns(digits);
    PaidPatterns(digits);
    RepresentativePatterns(digits);
    DomesticPatterns(digits);
  }

  // The classes do not overlap: each digit string has one shape at most.
  lemma ShapesDisjoint(digits: string)
    ensures PaidShape(digits) ==> ClassifyDigits(digits) == PAID
    ensures RepresentativeShape(digits) ==> ClassifyDigits(digits) == REPRESENTATIVE
    ensures IsAllowedDomesticDialNumber(digits) ==>
      ClassifyDigits(digits) == DOMESTIC && "0" <= digits && |digits| >= 9 && !("00" <= digits)
  {
    if |digits| >= 3 {
      Leading(digits);
    }
  }

  // Prefixes in terms of leading characters.
  lemma Leading(s: string)
    requires |s| >= 3
    ensures "0" <= s <==> s[0] == '0'
    ensures "00" <= s <==> s[0] == '0' && s[1] == '0'
    ensures "02" <= s <==> s[0] == '0' && s[1] == '2'
    ensures "15" <= s ==> s[0] == '1'
    ensures "16" <= s ==> s[0] == '1'
    ensures "18" <= s ==> s[0] == '1'
    ensures "060" <= s <==> s[0] == '0' && s[1] == '6' && s[2] == '0'
    ensures "010" <= s ==> s[0] == '0' && s[1] == '1'
    ensures "011" <= s ==> s[0] == '0' && s[1] == '1'
    ensures "016" <= s ==> s[0] == '0' && s[1] == '1'
    ensures "017" <= s ==> s[0] == '0' && s[1] == '1'
    ensures "018" <= s ==> s[0] == '0' && s[1] == '1'
    ensures "019" <= s ==> s[0] == '0' && s[1] == '1'
    ensures "070" <= s ==> s[0] == '0' && s[1] == '7'
    ensures "080" <= s ==> s[0] == '0' && s[1] == '8'
  {
  }

  // ---------- Policy against dialplan ----------

  // The digits the dialplan sees of a number.
  function Dialled(value: string): string {
    DigitsOnly(Trim(value))
  }

  // Of the numbers the policy denies, those written without a plus are blocked
  // by some generated pattern exactly when they have a class of their own or
  // happen to fall under a broad pattern.
  lemma DeniedIsBlocked(value: string, p: Permissions)
    requires AssertOutboundDialAllowed(value, p).Failure? && !StartsWithPlus(value)
    ensures MatchedByAny(BlockedPatterns(p), Dialled(value)) <==>
      ClassifyOutboundDialNumber(value) != UNSUPPORTED || UnderBroadPattern(Dialled(value), p)
  {
    BlockedExactly(p, Dialled(value));
    ShapesDisjoint(Dialled(value));
  }

  // Matched by the international or the domestic pattern, whatever the class.
  predicate UnderBroadPattern(digits: string, p: Permissions) {
    |digits| >= 3 && (("00" <= digits && !p.international) || ("0" <= digits && !p.domestic))
  }

  // An unsupported number is denied under any permissions, but in general
  // blocked under none.
  lemma UnsupportedNotBlocked(p: Permissions)
    ensures AssertOutboundDialAllowed("999", p) == Failure(UNSUPPORTED)
    ensures !MatchedByAny(BlockedPatterns(p), Dialled("999"))
  {
    PlainNumber("999");
    BlockedExactly(p, "999");
  }

  lemma PlainNumber(digits: string)
    requires AllDigits(digits) && digits != []
    ensures Trim(digits) == digits && Dialled(digits) == digits && !StartsWithPlus(digits)
  {
    assert IsDigit(digits[0]) && IsDigit(digits[|digits| - 1]);
    PlainDigits(digits);
  }

  // A number the policy allows is blocked all the same exactly when domestic
  // calls are denied and it is an international or paid one: the domestic
  // pattern also covers those.
  lemma AllowedButBlockedExactly(value: string, p: Permissions)
    requires AssertOutboundDialAllowed(value, p).Success? && !StartsWithPlus(value)
    ensures MatchedByAny(BlockedPatterns(p), Dialled(value)) <==>
      !p.domestic && ClassifyOutboundDialNumber(value) in {INTERNATIONAL, PAID}
  {
    BlockedExactly(p, Dialled(value));
    ShapesDisjoint(Dialled(value));
  }

  // The patterns of the PAID and REPRESENTATIVE classes match their class and
  // nothing else.
  lemma ClassPatternsExact(value: string)
    requires !StartsWithPlus(value)
    ensures MatchedByAny(PAID_PATTERNS, Dialled(value)) <==> ClassifyOutboundDialNumber(value) == PAID
    ensures MatchedByAny(REPRESENTATIVE_PATTERNS, Dialled(value)) <==> ClassifyOutboundDialNumber(value) == REPRESENTATIVE
  {
    PaidPatterns(Dialled(value));
    RepresentativePatterns(Dialled(value));
    ShapesDisjoint(Dialled(value));
  }

  // Written with a plus, a denied international number is blocked only when
  // its digits happen to have a blocked form of their own.
  lemma PlusBlockedExactly(value: string, p: Permissions)
    requires StartsWithPlus(value) && Dialled(value) != [] && !p.international
    ensures ClassifyOutboundDialNumber(value) == INTERNATIONAL
    ensures MatchedByAny(BlockedPatterns(p), Dialled(value)) <==>
      var digits := Dialled(value);
      || ("00" <= digits && |digits| >= 3)
      || (!p.paid && PaidShape(digits))
      || (!p.representative && RepresentativeShape(digits))
      || (!p.domestic && "0" <= digits && |digits| >= 3)
  {
    BlockedExactly(p, Dialled(value));
  }

  // So the usual international form slips through the dialplan.
  lemma PlusIsNotCovered(p: Permissions, digits: string)
    requires !p.international && AllDigits(digits) && digits != [] && digits[0] != '0'
    requires !RepresentativeShape(digits)
    ensures var value := "+" + digits;
      AssertOutboundDialAllowed(value, p) == Failure(INTERNATIONAL)
      && !MatchedByAny(BlockedPatterns(p), Dialled(value))
  {
    PlusNumber(digits);
    BlockedExactly(p, digits);
  }

  lemma PlusNumber(digits: string)
    requires AllDigits(digits) && digits != []
    ensures var value := "+" + digits; StartsWithPlus(value) && Dialled(value) == digits
  {
    var value := "+" + digits;
    assert value[|value| - 1] == digits[|digits| - 1];
    assert Trim(value) == value;
    assert value[1..] == digits;
    PlainDigits(digits);
  }

  lemma {:induction false} PlainDigits(s: string)
    requires AllDigits(s)
    ensures DigitsOnly(s) == s
  {
    if s != [] {
      PlainDigits(s[1..]);
      assert s == [s[0]] + s[1..];
    }
  }
}
