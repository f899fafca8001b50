// matchAsteriskPattern: the dialplan pattern matcher, and the language it
// decides.
module DialPatterns {

  predicate IsDigit(c: char) {
    '0' <= c <= '9'
  }

  ghost predicate AllDigits(s: string) {
    forall i :: 0 <= i < |s| ==> IsDigit(s[i])
  }

  // ---------- The pattern language ----------

  datatype Token =
    | DigitFrom(low: char, high: char)   // N, X and Z
    | OneOf(members: string)             // [...]
    | Rest                               // .
    | Literal(c: char)
    | Unclosed                           // a [ without a ]

  function IndexOf(s: string, c: char): (i: nat)
    ensures i <= |s| && (i < |s| ==> s[i] == c)
    ensures forall k :: 0 <= k < i ==> s[k] != c
  {
    if s == [] || s[0] == c then 0 else 1 + IndexOf(s[1..], c)
  }

  function StripHyphens(s: string): string {
    if s == [] then [] else (if s[0] == '-' then [] else [s[0]]) + StripHyphens(s[1..])
  }

  lemma {:induction false} NoHyphens(s: string)
    requires '-' !in s
    ensures StripHyphens(s) == s
  {
    if s != [] {
      NoHyphens(s[1..]);
      assert s == [s[0]] + s[1..];
    }
  }

  // Hyphens are gone by now, so there are no ranges inside brackets.
  ghost function HeadToken(body: string): Token
    requires body != []
  {
    match body[0]
    case 'N' => DigitFrom('2', '9')
    case 'X' => DigitFrom('0', '9')
    case 'Z' => DigitFrom('1', '9')
    case '.' => Rest
    case '[' => var end := IndexOf(body, ']'); if end == |body| then Unclosed else OneOf(body[1..end])
    case c => Literal(c)
  }

  ghost function HeadLength(body: string): (n: nat)
    requires body != []
    ensures 0 < n <= |body|
  {
    if body[0] != '[' then 1 else
      var end := IndexOf(body, ']');
      if end == |body| then |body| else end + 1
  }

  ghost function Tokenize(body: string): seq<Token>
    decreases |body|
  {
    if body == [] then [] else [HeadToken(body)] + Tokenize(body[HeadLength(body)..])
  }

  // A bracket is tested as a regular-expression class of its characters.
  predicate InClass(members: string, c: char) {
    if members != [] && members[0] == '^' then c !in members[1..] else c in members
  }

  ghost predicate Accepts(t: Token, c: char) {
    match t
    case DigitFrom(low, high) => low <= c <= high
    case OneOf(members) => InClass(members, c)
    case Literal(l) => c == l
    case Rest => false
    case Unclosed => false
  }

  ghost function FirstRest(ts: seq<Token>): (d: nat)
    ensures d <= |ts| && (d < |ts| ==> ts[d] == Rest)
    ensures forall k :: 0 <= k < d ==> ts[k] != Rest
  {
    if ts == [] || ts[0] == Rest then 0 else 1 + FirstRest(ts[1..])
  }

  // One character for each token before the first dot; from the dot on, at
  // least one more character and all of them digits, whatever the pattern says
  // after it.
  ghost predicate Matches(ts: seq<Token>, value: string) {
    var d := FirstRest(ts);
    && (if d < |ts| then |value| > d && forall k :: d <= k < |value| ==> IsDigit(value[k])
        else |value| == |ts|)
    && forall k :: 0 <= k < d ==> Accepts(ts[k], value[k])
  }

  ghost function TokensOf(pattern: string): seq<Token>
    requires pattern != []
  {
    Tokenize(StripHyphens(pattern[1..]))
  }

  ghost predicate InLanguage(pattern: string, value: string) {
    if pattern != [] && pattern[0] == '_' then Matches(TokensOf(pattern), value) else pattern == value
  }

  lemma MatchesCons(t: Token, ts: seq<Token>, value: string)
    requires t != Rest
    ensures Matches([t] + ts, value) <==> value != [] && Accepts(t, value[0]) && Matches(ts, value[1..])
  {
    var all := [t] + ts;
    assert all[1..] == ts;
    var d := FirstRest(ts);
    assert FirstRest(all) == d + 1;
    if value != [] {
      if Matches(all, value) {
        forall k | 0 <= k < d ensures Accepts(ts[k], value[1..][k]) {
          assert Accepts(all[k + 1], value[k + 1]);
        }
      }
      if Accepts(t, value[0]) && Matches(ts, value[1..]) {
        forall k | 0 <= k <= d ensures Accepts(all[k], value[k]) {
          assert k > 0 ==> Accepts(ts[k - 1], value[1..][k - 1]);
        }
        assert d < |ts| ==> forall k :: d + 1 <= k < |value| ==> value[k] == value[1..][k - 1];
      }
    }
  }

  // ---------- The matcher ----------

  // Whether what is left of the pattern matches what is left of the value.
  ghost predicate RestMatches(body: string, i: nat, value: string, v: nat)
    requires i <= |body| && v <= |value|
  {
    Matches(Tokenize(body[i..]), value[v..])
  }

  // What one turn of the loop decides, unless it is at a dot.
  lemma OneTurn(body: string, i: nat, value: string, v: nat)
    requires i < |body| && v < |value| && body[i] != '.'
    ensures RestMatches(body, i, value, v) <==>
      Accepts(HeadToken(body[i..]), value[v]) && RestMatches(body, i + HeadLength(body[i..]), value, v + 1)
  {
    var rest := body[i..];
    var n := HeadLength(rest);
    assert rest[n..] == body[i + n..];
    assert value[v..][1..] == value[v + 1..];
    MatchesCons(HeadToken(rest), Tokenize(rest[n..]), value[v..]);
  }

  lemma AtDot(body: string, i: nat, value: string, v: nat)
    requires i < |body| && v < |value| && body[i] == '.'
    ensures RestMatches(body, i, value, v) <==> AllDigits(value[v..])
  {
    assert FirstRest(Tokenize(body[i..])) == 0;
  }

  lemma AtEnd(body: string, i: nat, value: string, v: nat)
    requires i <= |body| && v <= |value| && (i == |body| || v == |value|)
    ensures RestMatches(body, i, value, v) <==> i == |body| && v == |value|
  {
    if i < |body| {
      assert |Tokenize(body[i..])| > 0;
    }
  }

  // No bracket that is tested has a backslash in it; a pattern that passes
  // validation has none anywhere.
  ghost predicate NoEscapes(pattern: string) {
    pattern != [] && pattern[0] == '_' ==>
      var ts := TokensOf(pattern);
      forall k :: 0 <= k < FirstRest(ts) && ts[k].OneOf? ==> '\\' !in ts[k].members
  }

  method MatchAsteriskPattern(pattern: string, value: string) returns (matched: bool)
    requires NoEscapes(pattern)
    ensures matched <==> InLanguage(pattern, value)
    ensures !("_" <= pattern) ==> (matched <==> pattern == value)
  {
    if pattern == [] || pattern[0] != '_' {
      return pattern == value;
    }
    var body := StripHyphens(pattern[1..]);
    matched := MatchBody(body, value);
    assert body[0..] == body && value[0..] == value;
  }

  method MatchBody(body: string, value: string) returns (matched: bool)
    ensures matched <==> RestMatches(body, 0, value, 0)
  {
    var i, v := 0, 0;
    while i < |body| && v < |value|
      invariant 0 <= i <= |body| && 0 <= v <= |value|
      invariant RestMatches(body, 0, value, 0) <==> RestMatches(body, i, value, v)
      decreases |body| - i
    {
      if body[i] == '.' {
        AtDot(body, i, value, v);
        matched := OnlyDigits(value[v..]);
        return;
      }
      var fits, length := Turn(body, i, value, v);
      if !fits {
        return false;
      }
      i, v := i + length, v + 1;
    }
    AtEnd(body, i, value, v);
    return i == |body| && v == |value|;
  }

  // One turn of the loop at a token other than a dot: fail, or go on behind
  // the token and the character.
  method Turn(body: string, i: nat, value: string, v: nat) returns (fits: bool, length: nat)
    requires i < |body| && v < |value| && body[i] != '.'
    ensures !fits ==> !RestMatches(body, i, value, v)
    ensures fits ==> 0 < length <= |body| - i
    ensures fits ==> (RestMatches(body, i, value, v) <==> RestMatches(body, i + length, value, v + 1))
  {
    OneTurn(body, i, value, v);
    fits, length := TestToken(body, i, value[v]);
  }

  // The branches of the loop body: does the character fit the token at i, and
  // how far does i advance if it does?
  method TestToken(body: string, i: nat, ch: char) returns (fits: bool, length: nat)
    requires i < |body| && body[i] != '.'
    ensures fits <==> Accepts(HeadToken(body[i..]), ch)
    ensures length == HeadLength(body[i..])
  {
    var c := body[i];
    length := 1;
    if c == 'N' {
      fits := '2' <= ch <= '9';
    } else if c == 'X' {
      fits := '0' <= ch <= '9';
    } else if c == 'Z' {
      fits := '1' <= ch <= '9';
    } else if c == '[' {
      var end := IndexOf(body[i..], ']');
      if i + end == |body| {
        return false, end;
      }
      fits := InClass(body[i..][1..end], ch);
      length := end + 1;
    } else {
      fits := c == ch;
    }
  }

  method OnlyDigits(s: string) returns (all: bool)
    ensures all <==> AllDigits(s)
  {
    all := true;
    for k := 0 to |s|
      invariant all <==> forall j :: 0 <= j < k ==> IsDigit(s[j])
    {
      if !IsDigit(s[k]) { all := false; }
    }
  }
}
