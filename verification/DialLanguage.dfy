// How the pattern language is put together, and where it is not Asterisk's:
// ranges lose their hyphen, and a dot ends the pattern.
module DialLanguage {
  import opened DialPatterns

  // ---------- Stripping and tokenizing a concatenation ----------

  lemma StripStep(c: char, s: string)
    ensures StripHyphens([c] + s) == (if c == '-' then [] else [c]) + StripHyphens(s)
  {
    assert ([c] + s)[1..] == s;
  }

  lemma {:induction false} StripConcat(a: string, b: string)
    ensures StripHyphens(a + b) == StripHyphens(a) + StripHyphens(b)
  {
    if a == [] {
      assert a + b == b;
    } else {
      FirstApart(a, b);
      StripConcat(a[1..], b);
      StripStep(a[0], a[1..]);
      StripStep(a[0], a[1..] + b);
    }
  }

  lemma FirstApart(a: string, b: string)
    requires a != []
    ensures a == [a[0]] + a[1..] && a + b == [a[0]] + (a[1..] + b)
  {
  }

  // Every bracket is closed.
  ghost predicate Closed(body: string) {
    Unclosed !in Tokenize(body)
  }

  lemma {:induction false} IndexConcat(a: string, b: string, c: char)
    requires IndexOf(a, c) < |a|
    ensures IndexOf(a + b, c) == IndexOf(a, c)
  {
    var i := IndexOf(a, c);
    assert (a + b)[i] == c;
    assert forall k :: 0 <= k < i ==> (a + b)[k] == a[k];
  }

  lemma HeadConcat(a: string, b: string)
    requires a != [] && HeadToken(a) != Unclosed
    ensures HeadToken(a + b) == HeadToken(a) && HeadLength(a + b) == HeadLength(a)
  {
    assert (a + b)[0] == a[0];
    if a[0] == '[' {
      var end := IndexOf(a, ']');
      IndexConcat(a, b, ']');
      assert (a + b)[1..end] == a[1..end];
    }
  }

  lemma ClosedTail(a: string)
    requires a != [] && Closed(a)
    ensures HeadToken(a) != Unclosed && Closed(a[HeadLength(a)..])
    ensures Tokenize(a) == [HeadToken(a)] + Tokenize(a[HeadLength(a)..])
  {
    assert Tokenize(a)[0] == HeadToken(a);
  }

  lemma StepConcat(a: string, b: string)
    requires a != [] && HeadToken(a) != Unclosed
    ensures Tokenize(a + b) == [HeadToken(a)] + Tokenize(a[HeadLength(a)..] + b)
  {
    HeadConcat(a, b);
    assert (a + b)[HeadLength(a)..] == a[HeadLength(a)..] + b;
  }

  lemma {:induction false} TokenizeConcat(a: string, b: string)
    requires Closed(a)
    ensures Tokenize(a + b) == Tokenize(a) + Tokenize(b)
    decreases |a|
  {
    if a == [] {
      assert a + b == b;
    } else {
      ClosedTail(a);
      StepConcat(a, b);
      TokenizeConcat(a[HeadLength(a)..], b);
    }
  }

  // ---------- Matching a concatenation ----------

  lemma {:induction false} MatchesConcat(xs: seq<Token>, ys: seq<Token>, value: string)
    requires Rest !in xs
    ensures Matches(xs + ys, value) <==>
      |xs| <= |value| && Matches(xs, value[..|xs|]) && Matches(ys, value[|xs|..])
  {
    var n := |xs|;
    if xs == [] {
      assert xs + ys == ys && value[0..] == value;
    } else {
      var rest := xs[1..];
      assert xs + ys == [xs[0]] + (rest + ys) && xs == [xs[0]] + rest;
      MatchesCons(xs[0], rest + ys, value);
      if n <= |value| {
        MatchesCons(xs[0], rest, value[..n]);
        MatchesConcat(rest, ys, value[1..]);
        assert value[..n][1..] == value[1..][..n - 1] && value[1..][n - 1..] == value[n..];
      } else if value != [] {
        MatchesConcat(rest, ys, value[1..]);
      }
    }
  }

  lemma MatchesAround(xs: seq<Token>, t: Token, ys: seq<Token>, value: string)
    requires Rest !in xs && t != Rest
    ensures Matches(xs + ([t] + ys), value) <==>
      |value| > |xs| && Matches(xs, value[..|xs|]) && Accepts(t, value[|xs|]) && Matches(ys, value[|xs| + 1..])
  {
    MatchesConcat(xs, [t] + ys, value);
    if |xs| <= |value| {
      MatchesCons(t, ys, value[|xs|..]);
      assert |value| > |xs| ==> value[|xs|..][1..] == value[|xs| + 1..];
    }
  }

  lemma {:induction false} FirstRestConcat(xs: seq<Token>, ys: seq<Token>)
    requires FirstRest(xs) < |xs|
    ensures FirstRest(xs + ys) == FirstRest(xs)
  {
    var d := FirstRest(xs);
    assert (xs + ys)[d] == Rest;
    assert forall k :: 0 <= k < d ==> (xs + ys)[k] == xs[k];
  }

  lemma RestEnds(xs: seq<Token>, ys: seq<Token>, value: string)
    ensures Matches(xs + ([Rest] + ys), value) <==> Matches(xs + ([Rest] + []), value)
  {
    var zs := xs + ([Rest] + []);
    var d := FirstRest(zs);
    assert zs[|xs|] == Rest && xs + ([Rest] + ys) == zs + ys;
    FirstRestConcat(zs, ys);
    assert forall k :: 0 <= k < d ==> (zs + ys)[k] == zs[k];
  }

  // ---------- The language piece by piece ----------

  // The text before the piece has all its brackets closed and no dot, so the
  // piece decides one character and what stands around it the rest.
  ghost predicate PieceDecides(before: string, piece: string, after: string, value: string, fits: set<char>) {
    var k := |Tokenize(StripHyphens(before))|;
    InLanguage("_" + (before + piece + after), value) <==>
      |value| > k && value[k] in fits
      && InLanguage("_" + before, value[..k]) && InLanguage("_" + after, value[k + 1..])
  }

  function DigitSet(c: char): set<char> {
    match c
    case 'N' => {'2', '3', '4', '5', '6', '7', '8', '9'}
    case 'X' => {'0', '1', '2', '3', '4', '5', '6', '7', '8', '9'}
    case 'Z' => {'1', '2', '3', '4', '5', '6', '7', '8', '9'}
    case _ => {c}
  }

  // N, X and Z stand for their digits, any other character for itself.
  lemma CharacterPiece(before: string, c: char, after: string, value: string)
    requires c !in {'.', '[', '-'}
    requires Closed(StripHyphens(before)) && Rest !in Tokenize(StripHyphens(before))
    ensures PieceDecides(before, [c], after, value, DigitSet(c))
  {
    CharacterTokens(before, c, after);
    TokenDecides(before, [c], HeadToken([c]), after, value);
    CharacterFits(c, value, |Tokenize(StripHyphens(before))|);
  }

  lemma CharacterTokens(before: string, c: char, after: string)
    requires c !in {'.', '[', '-'} && Closed(StripHyphens(before))
    ensures Tokenize(StripHyphens(before + [c] + after))
      == Tokenize(StripHyphens(before)) + ([HeadToken([c])] + Tokenize(StripHyphens(after)))
    ensures HeadToken([c]) != Rest
  {
    StripConcat(before + [c], after);
    StripConcat(before, [c]);
    NoHyphens([c]);
    CharacterToken(c);
    TokenizeThree(StripHyphens(before), [c], StripHyphens(after));
  }

  lemma CharacterToken(c: char)
    requires c !in {'.', '[', '-'}
    ensures Tokenize([c]) == [HeadToken([c])] && Closed([c]) && HeadToken([c]) != Rest
  {
    assert [c][1..] == [];
  }

  lemma CharacterFits(c: char, value: string, k: nat)
    requires c !in {'.', '[', '-'}
    ensures k < |value| ==> (Accepts(HeadToken([c]), value[k]) <==> value[k] in DigitSet(c))
  {
  }

  // A piece that is one token.
  lemma TokenDecides(before: string, piece: string, t: Token, after: string, value: string)
    requires Closed(StripHyphens(before)) && Rest !in Tokenize(StripHyphens(before)) && t != Rest
    requires Tokenize(StripHyphens(before + piece + after))
      == Tokenize(StripHyphens(before)) + ([t] + Tokenize(StripHyphens(after)))
    ensures var k := |Tokenize(StripHyphens(before))|;
      InLanguage("_" + (before + piece + after), value) <==>
        |value| > k && Accepts(t, value[k])
        && InLanguage("_" + before, value[..k]) && InLanguage("_" + after, value[k + 1..])
  {
    var k := |Tokenize(StripHyphens(before))|;
    BodyDecides(before + piece + after, value);
    MatchesAround(Tokenize(StripHyphens(before)), t, Tokenize(StripHyphens(after)), value);
    BodiesDecide(before, after, value, k);
  }

  // A bracket stands for one of its characters, or with a leading ^ for any
  // character but those after it.
  lemma BracketPiece(before: string, members: string, after: string, value: string)
    requires ']' !in members && '-' !in members
    requires Closed(StripHyphens(before)) && Rest !in Tokenize(StripHyphens(before))
    ensures var k := |Tokenize(StripHyphens(before))|;
      InLanguage("_" + (before + ("[" + members + "]") + after), value) <==>
        |value| > k
        && (if "^" <= members then forall i :: 1 <= i < |members| ==> members[i] != value[k]
            else exists i :: 0 <= i < |members| && members[i] == value[k])
        && InLanguage("_" + before, value[..k]) && InLanguage("_" + after, value[k + 1..])
  {
    var piece := "[" + members + "]";
    StripConcat(before + piece, after);
    StripConcat(before, piece);
    BracketStrips(members);
    BracketToken(members);
    TokenizeThree(StripHyphens(before), piece, StripHyphens(after));
    TokenDecides(before, piece, OneOf(members), after, value);
    MembersFit(members, value, |Tokenize(StripHyphens(before))|);
  }

  lemma MembersFit(members: string, value: string, k: nat)
    ensures k < |value| ==> (Accepts(OneOf(members), value[k]) <==>
      if "^" <= members then forall i :: 1 <= i < |members| ==> members[i] != value[k]
      else exists i :: 0 <= i < |members| && members[i] == value[k])
  {
    if k < |value| && "^" <= members {
      assert forall i :: 1 <= i < |members| ==> members[i] == members[1..][i - 1];
    }
  }

  lemma BracketStrips(members: string)
    requires '-' !in members
    ensures StripHyphens("[" + members + "]") == "[" + members + "]"
  {
    NoHyphens("[" + members + "]");
  }

  lemma BracketToken(members: string)
    requires ']' !in members
    ensures Tokenize("[" + members + "]") == [OneOf(members)] && Closed("[" + members + "]")
  {
    var body := "[" + members + "]";
    var end := |members| + 1;
    assert body[end] == ']' && forall k :: 0 <= k < end ==> body[k] != ']';
    assert IndexOf(body, ']') == end;
    assert body[1..end] == members && body[end + 1..] == [];
    assert HeadToken(body) == OneOf(members);
  }

  // Nothing matches a pattern with a bracket that is never closed.
  lemma UnclosedNever(before: string, rest: string, value: string)
    requires ']' !in rest && '-' !in rest
    requires Closed(StripHyphens(before)) && Rest !in Tokenize(StripHyphens(before))
    ensures !InLanguage("_" + (before + "[" + rest), value)
  {
    UnclosedTokens(before, rest);
    BodyDecides(before + "[" + rest, value);
    MatchesAround(Tokenize(StripHyphens(before)), Unclosed, [], value);
  }

  lemma UnclosedTokens(before: string, rest: string)
    requires ']' !in rest && '-' !in rest && Closed(StripHyphens(before))
    ensures Tokenize(StripHyphens(before + "[" + rest)) == Tokenize(StripHyphens(before)) + ([Unclosed] + [])
  {
    assert before + "[" + rest == before + ("[" + rest);
    StripConcat(before, "[" + rest);
    NoHyphens("[" + rest);
    UnclosedToken(rest);
    TokenizeConcat(StripHyphens(before), "[" + rest);
  }

  lemma UnclosedToken(rest: string)
    requires ']' !in rest
    ensures Tokenize("[" + rest) == [Unclosed] + []
  {
    var body := "[" + rest;
    assert forall k :: 0 <= k < |body| ==> body[k] != ']';
    assert IndexOf(body, ']') == |body|;
    assert Tokenize(body[|body|..]) == [];
  }

  // The empty pattern body matches the empty number only.
  lemma EmptyBody(value: string)
    ensures InLanguage("_", value) <==> value == []
  {
    assert "_"[1..] == [] && Tokenize(StripHyphens([])) == [];
  }

  // A hyphen outside or inside a bracket is as if it were not there.
  lemma HyphenIgnored(before: string, after: string, value: string)
    ensures InLanguage("_" + (before + "-" + after), value) <==> InLanguage("_" + (before + after), value)
  {
    StripConcat(before + "-", after);
    StripConcat(before, "-");
    assert StripHyphens("-") == [];
    StripConcat(before, after);
    assert StripHyphens(before) + [] == StripHyphens(before);
    assert StripHyphens(before + "-" + after) == StripHyphens(before + after);
    BodyDecides(before + "-" + after, value);
    BodyDecides(before + after, value);
  }

  // A dot stands for one or more digits.
  lemma DotPiece(before: string, value: string)
    requires Closed(StripHyphens(before)) && Rest !in Tokenize(StripHyphens(before))
    ensures var k := |Tokenize(StripHyphens(before))|;
      InLanguage("_" + (before + "."), value) <==>
        |value| > k && InLanguage("_" + before, value[..k]) && forall i :: k <= i < |value| ==> IsDigit(value[i])
  {
    assert before + "." + "" == before + "." && Tokenize(StripHyphens("")) == [];
    DotDecides(before, "", value);
    MatchesDot(Tokenize(StripHyphens(before)), value);
    if |Tokenize(StripHyphens(before))| < |value| {
      BodyDecides(before, value[..|Tokenize(StripHyphens(before))|]);
    }
  }

  lemma MatchesDot(xs: seq<Token>, value: string)
    requires Rest !in xs
    ensures Matches(xs + ([Rest] + []), value) <==>
      |value| > |xs| && Matches(xs, value[..|xs|]) && forall i :: |xs| <= i < |value| ==> IsDigit(value[i])
  {
    MatchesConcat(xs, [Rest] + [], value);
    if |xs| <= |value| {
      RestMatchesDigits(value[|xs|..]);
      assert forall i :: |xs| <= i < |value| ==> value[i] == value[|xs|..][i - |xs|];
    }
  }

  lemma RestMatchesDigits(value: string)
    ensures Matches([Rest] + [], value) <==> value != [] && AllDigits(value)
  {
    assert FirstRest([Rest] + []) == 0;
  }

  // ---------- Where the language is not Asterisk's ----------

  // Whatever stands after a dot is ignored, unless the dot is itself inside a
  // bracket.
  lemma DotEndsPattern(before: string, after: string, value: string)
    requires Closed(StripHyphens(before))
    ensures InLanguage("_" + (before + "." + after), value) <==> InLanguage("_" + (before + "."), value)
  {
    assert before + "." + "" == before + ".";
    DotDecides(before, after, value);
    DotDecides(before, "", value);
    RestEnds(Tokenize(StripHyphens(before)), Tokenize(StripHyphens(after)), value);
  }

  lemma DotDecides(before: string, after: string, value: string)
    requires Closed(StripHyphens(before))
    ensures InLanguage("_" + (before + "." + after), value) <==>
      Matches(Tokenize(StripHyphens(before)) + ([Rest] + Tokenize(StripHyphens(after))), value)
  {
    BodyDecides(before + "." + after, value);
    StripConcat(before + ".", after);
    StripConcat(before, ".");
    DotToken();
    TokenizeThree(StripHyphens(before), ".", StripHyphens(after));
  }

  lemma DotToken()
    ensures StripHyphens(".") == "." && Tokenize(".") == [Rest] && Closed(".")
  {
    StripStep('.', "");
    assert Tokenize(".") == [Rest] + Tokenize("");
  }

  function RangeText(low: char, high: char): string {
    ['[', low, '-', high, ']']
  }

  // A range in brackets has lost its hyphen: wherever it stands before a dot,
  // it accepts its two ends and nothing between them.
  lemma RangeIsItsEnds(before: string, low: char, high: char, after: string, value: string)
    requires '-' !in {low, high} && ']' !in {low, high} && low != '^'
    requires Closed(StripHyphens(before)) && Rest !in Tokenize(StripHyphens(before))
    ensures var k := |Tokenize(StripHyphens(before))|;
      InLanguage("_" + (before + RangeText(low, high) + after), value) <==>
        |value| > k && (value[k] == low || value[k] == high)
        && InLanguage("_" + before, value[..k]) && InLanguage("_" + after, value[k + 1..])
  {
    RangeTokens(before, low, high, after);
    BodyDecides(before + RangeText(low, high) + after, value);
    MatchesAround(Tokenize(StripHyphens(before)), OneOf([low, high]), Tokenize(StripHyphens(after)), value);
    EndsAccepted(low, high, value, |Tokenize(StripHyphens(before))|);
    BodiesDecide(before, after, value, |Tokenize(StripHyphens(before))|);
  }

  lemma EndsAccepted(low: char, high: char, value: string, k: nat)
    requires low != '^'
    ensures k < |value| ==> (Accepts(OneOf([low, high]), value[k]) <==> value[k] == low || value[k] == high)
  {
  }

  lemma BodiesDecide(before: string, after: string, value: string, k: nat)
    ensures k < |value| ==>
      && (InLanguage("_" + before, value[..k]) <==> Matches(Tokenize(StripHyphens(before)), value[..k]))
      && (InLanguage("_" + after, value[k + 1..]) <==> Matches(Tokenize(StripHyphens(after)), value[k + 1..]))
  {
    if k < |value| {
      BodyDecides(before, value[..k]);
      BodyDecides(after, value[k + 1..]);
    }
  }

  lemma BodyDecides(body: string, value: string)
    ensures InLanguage("_" + body, value) <==> Matches(Tokenize(StripHyphens(body)), value)
  {
    assert ("_" + body)[1..] == body;
  }

  lemma RangeTokens(before: string, low: char, high: char, after: string)
    requires '-' !in {low, high} && ']' !in {low, high}
    requires Closed(StripHyphens(before))
    ensures Tokenize(StripHyphens(before + RangeText(low, high) + after))
      == Tokenize(StripHyphens(before)) + ([OneOf([low, high])] + Tokenize(StripHyphens(after)))
  {
    StripConcat(before + RangeText(low, high), after);
    StripConcat(before, RangeText(low, high));
    StripRange(low, high);
    BracketTokens(low, high);
    TokenizeThree(StripHyphens(before), ['[', low, high, ']'], StripHyphens(after));
  }

  lemma TokenizeThree(a: string, b: string, c: string)
    requires Closed(a) && Closed(b)
    ensures Tokenize(a + b + c) == Tokenize(a) + (Tokenize(b) + Tokenize(c))
  {
    assert a + b + c == a + (b + c);
    TokenizeConcat(a, b + c);
    TokenizeConcat(b, c);
  }

  lemma StripRange(low: char, high: char)
    requires '-' !in {low, high}
    ensures StripHyphens(RangeText(low, high)) == ['[', low, high, ']']
  {
    StripStep(']', []);
    StripStep(high, [']']);
    StripStep('-', [high, ']']);
    StripStep(low, ['-', high, ']']);
    StripStep('[', [low, '-', high, ']']);
  }

  lemma BracketTokens(low: char, high: char)
    requires ']' !in {low, high}
    ensures Tokenize(['[', low, high, ']']) == [OneOf([low, high])]
  {
    var body := ['[', low, high, ']'];
    assert body[3] == ']' && body[0] != ']' && body[1] != ']' && body[2] != ']';
    assert IndexOf(body, ']') == 3;
    assert body[1..3] == [low, high];
    assert Tokenize(body[4..]) == [];
  }
}
