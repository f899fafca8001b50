// Allowed caller ids: the text form they are stored in and the parser for it.
module CallerIds {
  import opened Results
  import opened DialPatterns
  import opened DialPolicy
  import opened DialClasses

  datatype CallerIdError = BadCallerId

  function NormalizeCallerId(value: string): Result<string, CallerIdError> {
    var normalized := DigitsOnly(value);
    if 8 <= |normalized| <= 16 then Success(normalized) else Failure(BadCallerId)
  }

  // Split at LF, CR LF and comma.
  function Split(s: string): (parts: seq<string>)
    ensures parts != []
  {
    if s == "" then [""]
    else if s[0] == ',' || s[0] == '\n' then [""] + Split(s[1..])
    else if s[0] == '\r' && |s| > 1 && s[1] == '\n' then [""] + Split(s[2..])
    else
      var more := Split(s[1..]);
      [[s[0]] + more[0]] + more[1..]
  }

  function NormalizeAll(parts: seq<string>): Result<seq<string>, CallerIdError> {
    if parts == [] then Success([]) else
      var item := Trim(parts[0]);
      var more := NormalizeAll(parts[1..]);
      if item == "" then more else
        var first := NormalizeCallerId(item);
        if first.Failure? || more.Failure? then Failure(BadCallerId) else Success([first.value] + more.value)
  }

  // The entries of a list in order of first occurrence, as a Set keeps them.
  function Unique(xs: seq<string>): seq<string> {
    if xs == [] then [] else
      var before := Unique(xs[..|xs| - 1]);
      if xs[|xs| - 1] in before then before else before + [xs[|xs| - 1]]
  }

  function ParseAllowedCallerIds(value: Option<string>): Result<seq<string>, CallerIdError> {
    if value.None? || value.value == "" then Success([]) else
      var all := NormalizeAll(Split(value.value));
      if all.Success? then Success(Unique(all.value)) else all
  }

  function Join(values: seq<string>): string
    requires values != []
  {
    if |values| == 1 then values[0] else values[0] + "\n" + Join(values[1..])
  }

  function SerializeAllowedCallerIds(values: seq<string>): Option<string> {
    if values == [] then None else Some(Join(values))
  }

  // ---------- Round trips ----------

  ghost predicate IsCallerId(s: string) {
    AllDigits(s) && 8 <= |s| <= 16
  }

  ghost predicate Distinct(xs: seq<string>) {
    forall i, j :: 0 <= i < j < |xs| ==> xs[i] != xs[j]
  }

  ghost predicate AllCallerIds(xs: seq<string>) {
    forall i :: 0 <= i < |xs| ==> IsCallerId(xs[i])
  }

  ghost predicate Canonical(xs: seq<string>) {
    Distinct(xs) && AllCallerIds(xs)
  }

  lemma {:induction false} SplitDigits(x: string)
    requires AllDigits(x)
    ensures Split(x) == [x]
  {
    if x != "" {
      SplitDigits(x[1..]);
      assert x == [x[0]] + x[1..];
    }
  }

  lemma {:induction false} SplitLine(x: string, rest: string)
    requires AllDigits(x)
    ensures Split(x + "\n" + rest) == [x] + Split(rest)
  {
    var s := x + "\n" + rest;
    if x == "" {
      assert s[1..] == rest;
    } else {
      SplitLine(x[1..], rest);
      assert s[1..] == x[1..] + "\n" + rest;
      assert s[0] == x[0] && IsDigit(x[0]) && x == [x[0]] + x[1..];
    }
  }

  lemma {:induction false} SplitJoined(xs: seq<string>)
    requires xs != [] && AllCallerIds(xs)
    ensures Split(Join(xs)) == xs
  {
    if |xs| == 1 {
      SplitDigits(xs[0]);
    } else {
      SplitLine(xs[0], Join(xs[1..]));
      SplitJoined(xs[1..]);
    }
  }

  lemma TrimDigits(x: string)
    requires IsCallerId(x)
    ensures Trim(x) == x
  {
    assert IsDigit(x[0]) && IsDigit(x[|x| - 1]);
  }

  lemma {:induction false} NormalizeCanonical(xs: seq<string>)
    requires AllCallerIds(xs)
    ensures NormalizeAll(xs) == Success(xs)
  {
    if xs != [] {
      TrimDigits(xs[0]);
      PlainDigits(xs[0]);
      NormalizeCanonical(xs[1..]);
      assert xs[0] != "" && xs == [xs[0]] + xs[1..];
    }
  }

  lemma {:induction false} UniqueDistinct(xs: seq<string>)
    ensures Distinct(Unique(xs)) && forall x <- Unique(xs) :: x in xs
  {
    if xs != [] {
      UniqueDistinct(xs[..|xs| - 1]);
    }
  }

  lemma {:induction false} UniqueOfDistinct(xs: seq<string>)
    requires Distinct(xs)
    ensures Unique(xs) == xs
  {
    if xs != [] {
      UniqueOfDistinct(xs[..|xs| - 1]);
      assert xs == xs[..|xs| - 1] + [xs[|xs| - 1]];
    }
  }

  lemma {:induction false} NormalizedAreIds(parts: seq<string>)
    requires NormalizeAll(parts).Success?
    ensures AllCallerIds(NormalizeAll(parts).value)
  {
    if parts != [] {
      NormalizedAreIds(parts[1..]);
    }
  }

  // Storing a list of distinct caller ids and reading it back changes nothing,
  // the empty list by way of null.
  lemma SerializeRoundTrip(xs: seq<string>)
    requires Canonical(xs)
    ensures ParseAllowedCallerIds(SerializeAllowedCallerIds(xs)) == Success(xs)
  {
    if xs != [] {
      assert IsCallerId(xs[0]) && Join(xs) != "";
      SplitJoined(xs);
      NormalizeCanonical(xs);
      UniqueOfDistinct(xs);
    }
  }

  // The stored text has one caller id a line and nothing but digits on it.
  lemma {:induction false} SerializedInLines(xs: seq<string>)
    requires xs != [] && AllCallerIds(xs)
    ensures var s := SerializeAllowedCallerIds(xs);
      s.Some? && forall i :: 0 <= i < |s.value| ==> IsDigit(s.value[i]) || s.value[i] == '\n'
  {
    assert forall i :: 0 <= i < |xs[0]| ==> IsDigit(xs[0][i]);
    if |xs| > 1 {
      SerializedInLines(xs[1..]);
    }
  }

  // Whatever parses is canonical, so one store and load makes it stable.
  lemma ParseIsStable(value: Option<string>)
    requires ParseAllowedCallerIds(value).Success?
    ensures var xs := ParseAllowedCallerIds(value).value;
      Canonical(xs) && ParseAllowedCallerIds(SerializeAllowedCallerIds(xs)) == Success(xs)
  {
    if value.Some? && value.value != "" {
      var all := NormalizeAll(Split(value.value)).value;
      NormalizedAreIds(Split(value.value));
      UniqueDistinct(all);
      assert forall x :: x in all ==> IsCallerId(x);
    }
    SerializeRoundTrip(ParseAllowedCallerIds(value).value);
  }

  // ---------- What parsing reads ----------

  // A piece of text between separators.
  ghost predicate Piece(s: string) {
    (forall i :: 0 <= i < |s| ==> s[i] != ',' && s[i] != '\n') && (s != [] ==> s[|s| - 1] != '\r')
  }

  predicate Separator(s: string) {
    s == "," || s == "\n" || s == "\r\n"
  }

  // Splitting takes the text apart at commas and line ends of either kind, and
  // nowhere else.
  lemma {:induction false} SplitExactly(piece: string, separator: string, rest: string)
    requires Piece(piece) && Separator(separator)
    ensures Split(piece) == [piece]
    ensures Split(piece + separator + rest) == [piece] + Split(rest)
  {
    var s := piece + separator + rest;
    if piece == "" {
      assert s == separator + rest;
      assert separator == "\r\n" ==> s[2..] == rest;
      assert separator != "\r\n" ==> s[1..] == rest;
    } else {
      assert s[0] == piece[0] && s[1..] == piece[1..] + separator + rest;
      SplitExactly(piece[1..], separator, rest);
      assert piece == [piece[0]] + piece[1..];
      NotLineEnd(piece, separator, rest);
    }
  }

  // A carriage return within a piece starts no line end.
  lemma NotLineEnd(piece: string, separator: string, rest: string)
    requires Piece(piece) && Separator(separator) && piece != ""
    ensures var s := piece + separator + rest; !(s[0] == '\r' && |s| > 1 && s[1] == '\n')
    ensures !(piece[0] == '\r' && |piece| > 1 && piece[1] == '\n')
  {
    var s := piece + separator + rest;
    if |piece| > 1 {
      assert s[1] == piece[1];
    } else {
      assert s[0] == piece[0] && piece[0] != '\r';
    }
  }

  // The digits of the pieces that are not blank.
  ghost function Kept(parts: seq<string>): seq<string> {
    if parts == [] then []
    else (if Trim(parts[0]) == "" then [] else [DigitsOnly(parts[0])]) + Kept(parts[1..])
  }

  ghost predicate Readable(part: string) {
    Trim(part) == "" || 8 <= |DigitsOnly(part)| <= 16
  }

  ghost predicate AllReadable(parts: seq<string>) {
    forall i :: 0 <= i < |parts| ==> Readable(parts[i])
  }

  lemma ReadableFirst(parts: seq<string>)
    requires parts != []
    ensures AllReadable(parts) <==> Readable(parts[0]) && AllReadable(parts[1..])
  {
    var rest := parts[1..];
    assert forall i :: 0 < i < |parts| ==> parts[i] == rest[i - 1];
    if AllReadable(parts) {
      forall i | 0 <= i < |rest| ensures Readable(rest[i]) {
        assert Readable(parts[i + 1]);
      }
    }
  }

  // Blank pieces are skipped, and every other piece must have 8 to 16 digits.
  lemma {:induction false} NormalizesExactly(parts: seq<string>)
    ensures NormalizeAll(parts) == if AllReadable(parts) then Success(Kept(parts)) else Failure(BadCallerId)
  {
    if parts != [] {
      ReadableFirst(parts);
      NormalizesExactly(parts[1..]);
      DialledIsDigits(parts[0]);
      assert [] + Kept(parts[1..]) == Kept(parts[1..]);
    }
  }

  // No entry is lost, and the entries keep the order they first occur in.
  lemma {:induction false} UniqueKeepsAll(xs: seq<string>)
    ensures forall x <- xs :: x in Unique(xs)
  {
    if xs != [] {
      var n := |xs| - 1;
      UniqueKeepsAll(xs[..n]);
      assert forall x <- xs :: x in xs[..n] || x == xs[n];
    }
  }

  lemma {:induction false} UniqueInOrder(xs: seq<string>, ys: seq<string>)
    ensures Unique(xs) <= Unique(xs + ys)
  {
    if ys == [] {
      assert xs + ys == xs;
    } else {
      var n := |ys| - 1;
      UniqueInOrder(xs, ys[..n]);
      assert (xs + ys)[..|xs| + n] == xs + ys[..n];
    }
  }

  // What a stored text is read as: the digits of its pieces, blank ones
  // skipped, each number once in the order they first occur; a single piece
  // that is neither blank nor 8 to 16 digits makes it unreadable.
  lemma ParsesExactly(value: string)
    ensures ParseAllowedCallerIds(Some(value)) ==
      if AllReadable(Split(value)) then Success(Unique(Kept(Split(value)))) else Failure(BadCallerId)
  {
    NormalizesExactly(Split(value));
    if value == "" {
      assert Split(value) == [""] && Trim("") == "" && [""][1..] == [];
      assert Kept([""]) == [] + Kept([]);
    }
  }
}
