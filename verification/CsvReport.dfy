// The detail CSV of a load run, and a reader for it by the quoting rules of
// section 2 of RFC 4180 (with LF line ends).
module CsvReport {
  import opened Results

  datatype CallResultDetail = CallResultDetail(
    callRunId: string, from: string, toDid: string, finalSipCode: int, failureCode: string, startOffsetMs: int)

  // ---------- Writing ----------

  predicate Special(c: char) {
    c == '"' || c == ',' || c == '\n' || c == '\r'
  }

  predicate NeedsQuoting(field: string) {
    exists i :: 0 <= i < |field| && Special(field[i])
  }

  // The field with every quote doubled.
  function Doubled(field: string): string {
    if field == "" then "" else (if field[0] == '"' then "\"\"" else [field[0]]) + Doubled(field[1..])
  }

  function FieldText(field: string): string {
    if NeedsQuoting(field) then "\"" + Doubled(field) + "\"" else field
  }

  lemma {:induction false} DoubledAppend(a: string, c: char)
    ensures Doubled(a + [c]) == Doubled(a) + (if c == '"' then "\"\"" else [c])
  {
    if a == "" {
      assert a + [c] == [c];
    } else {
      DoubledAppend(a[1..], c);
      assert (a + [c])[1..] == a[1..] + [c];
    }
  }

  lemma {:induction false} DoubledPlain(field: string)
    requires !NeedsQuoting(field)
    ensures Doubled(field) == field
  {
    if field != "" {
      assert !Special(field[0]);
      assert forall i :: 0 <= i < |field[1..]| ==> field[1..][i] == field[i + 1];
      DoubledPlain(field[1..]);
    }
  }

  method EscapeCsvField(field: string) returns (text: string)
    ensures text == FieldText(field)
  {
    var needsQuoting := false;
    var escaped := "";
    for i := 0 to |field|
      invariant needsQuoting <==> exists k :: 0 <= k < i && Special(field[k])
      invariant escaped == Doubled(field[..i])
    {
      var ch := field[i];
      DoubledAppend(field[..i], ch);
      assert field[..i + 1] == field[..i] + [ch];
      if Special(ch) {
        needsQuoting := true;
      }
      if ch == '"' {
        escaped := escaped + "\"\"";
      } else {
        escaped := escaped + [ch];
      }
    }
    assert field[..|field|] == field;
    if !needsQuoting {
      DoubledPlain(field);
      return escaped;
    }
    return "\"" + escaped + "\"";
  }

  function DigitText(d: nat): char
    requires d < 10
  {
    '0' + d as char
  }

  function NatText(n: nat): string {
    (if n < 10 then "" else NatText(n / 10)) + [DigitText(n % 10)]
  }

  function IntText(n: int): string {
    if n < 0 then "-" + NatText(-n) else NatText(n)
  }

  const COLUMNS := ["callRunId", "from", "toDid", "finalSipCode", "failureCode", "startOffsetMs"]

  const HEADER := ("callRunId" + ",") + ("from" + ",") + ("toDid" + ",") + ("finalSipCode" + ",")
    + ("failureCode" + ",") + ("startOffsetMs" + "\n")

  ghost function Fields(d: CallResultDetail): (r: seq<string>)
    ensures |r| == 6
  {
    [d.callRunId, d.from, d.toDid, IntText(d.finalSipCode), d.failureCode, IntText(d.startOffsetMs)]
  }

  ghost function Concat(parts: seq<string>): string {
    if parts == [] then "" else Concat(parts[..|parts| - 1]) + parts[|parts| - 1]
  }

  lemma {:induction false} ConcatFront(parts: seq<string>)
    requires parts != []
    ensures Concat(parts) == parts[0] + Concat(parts[1..])
  {
    var n := |parts| - 1;
    if n == 0 {
      assert parts[..0] == [] && parts[1..] == [];
    } else {
      ConcatFront(parts[..n]);
      assert parts[..n][1..] == parts[1..][..n - 1];
    }
  }

  // The fields of a row, each followed by a comma except the last.
  ghost function CellParts(fields: seq<string>): (parts: seq<string>)
    requires fields != []
    ensures |parts| == |fields|
  {
    seq(|fields|, i requires 0 <= i < |fields| => FieldText(fields[i]) + if i + 1 < |fields| then "," else "\n")
  }

  ghost function RowText(fields: seq<string>): string
    requires fields != []
  {
    Concat(CellParts(fields))
  }

  ghost function Lines(details: seq<CallResultDetail>): (lines: seq<string>)
    ensures |lines| == |details|
  {
    seq(|details|, i requires 0 <= i < |details| => RowText(Fields(details[i])))
  }

  ghost function DetailsText(details: seq<CallResultDetail>): string {
    Concat(Lines(details))
  }

  lemma {:induction false} NatTextPlain(n: nat)
    ensures !NeedsQuoting(NatText(n))
  {
    if n >= 10 {
      NatTextPlain(n / 10);
    }
  }

  lemma IntTextPlain(n: int)
    ensures FieldText(IntText(n)) == IntText(n)
  {
    NatTextPlain(if n < 0 then -n else n);
  }

  method CsvRow(detail: CallResultDetail) returns (row: string)
    ensures row == RowText(Fields(detail))
  {
    var callRunId := EscapeCsvField(detail.callRunId);
    var from := EscapeCsvField(detail.from);
    var toDid := EscapeCsvField(detail.toDid);
    var failureCode := EscapeCsvField(detail.failureCode);
    // Numbers are printed as they are: their text never needs quoting.
    IntTextPlain(detail.finalSipCode);
    IntTextPlain(detail.startOffsetMs);
    var cells := [callRunId, from, toDid, IntText(detail.finalSipCode), failureCode, IntText(detail.startOffsetMs)];
    ghost var parts := CellParts(Fields(detail));
    assert forall i :: 0 <= i < 6 ==> cells[i] == FieldText(Fields(detail)[i]);
    row := JoinCells(cells, parts);
  }

  method JoinCells(cells: seq<string>, ghost parts: seq<string>) returns (row: string)
    requires |parts| == |cells|
    requires forall i :: 0 <= i < |cells| ==> parts[i] == cells[i] + if i + 1 < |cells| then "," else "\n"
    ensures row == Concat(parts)
  {
    row := "";
    for i := 0 to |cells|
      invariant row == Concat(parts[..i])
    {
      row := row + (cells[i] + if i + 1 < |cells| then "," else "\n");
      ConcatNext(parts, i);
    }
    assert parts[..|cells|] == parts;
  }

  method DetailCsv(details: seq<CallResultDetail>) returns (text: string)
    ensures text == HEADER + DetailsText(details)
  {
    var rows := DetailRows(details);
    text := HEADER + rows;
  }

  method DetailRows(details: seq<CallResultDetail>) returns (text: string)
    ensures text == DetailsText(details)
  {
    text := "";
    ghost var lines := Lines(details);
    for i := 0 to |details|
      invariant text == Concat(lines[..i])
    {
      var row := CsvRow(details[i]);
      assert lines[..i + 1][..i] == lines[..i];
      text := text + row;
    }
    assert lines[..|details|] == lines;
  }

  // ---------- Reading ----------

  function Quoted(s: string): (r: Option<(string, string)>)
    ensures r.Some? ==> |r.value.1| < |s|
  {
    if s == "" then None
    else if s[0] != '"' then Prepend(s[0], Quoted(s[1..]))
    else if |s| > 1 && s[1] == '"' then Prepend('"', Quoted(s[2..]))
    else Some(("", s[1..]))
  }

  function Prepend(c: char, r: Option<(string, string)>): Option<(string, string)> {
    if r.Some? then Some(([c] + r.value.0, r.value.1)) else None
  }

  function Unquoted(s: string): (r: Option<(string, string)>)
    ensures r.Some? ==> |r.value.1| <= |s|
  {
    if s == "" || s[0] == ',' || s[0] == '\n' then Some(("", s))
    else if Special(s[0]) then None
    else Prepend(s[0], Unquoted(s[1..]))
  }

  function ReadField(s: string): (r: Option<(string, string)>)
    ensures r.Some? ==> |r.value.1| <= |s|
  {
    if s != "" && s[0] == '"' then Quoted(s[1..]) else Unquoted(s)
  }

  function ReadRecord(s: string): (r: Option<(seq<string>, string)>)
    ensures r.Some? ==> |r.value.1| < |s|
    decreases |s|
  {
    var field := ReadField(s);
    if field.None? || field.value.1 == "" then None
    else
      var rest := field.value.1[1..];
      if field.value.1[0] == '\n' then Some(([field.value.0], rest))
      else if field.value.1[0] == ',' then
        var more := ReadRecord(rest);
        if more.None? then None else Some(([field.value.0] + more.value.0, more.value.1))
      else None
  }

  function ReadCsv(s: string): Option<seq<seq<string>>>
    decreases |s|
  {
    if s == "" then Some([]) else
      var record := ReadRecord(s);
      if record.None? then None else
        var more := ReadCsv(record.value.1);
        if more.None? then None else Some([record.value.0] + more.value)
  }

  predicate NatTextual(s: string) {
    s != "" && forall i :: 0 <= i < |s| ==> '0' <= s[i] <= '9'
  }

  function ReadNat(s: string): int
    requires NatTextual(s)
  {
    var d := s[|s| - 1] as nat - '0' as nat;
    if |s| == 1 then d else ReadNat(s[..|s| - 1]) * 10 + d
  }

  function ReadInt(s: string): Option<int> {
    if NatTextual(s) then Some(ReadNat(s))
    else if s != "" && s[0] == '-' && NatTextual(s[1..]) then Some(-ReadNat(s[1..]))
    else None
  }

  function ReadDetail(fields: seq<string>): Option<CallResultDetail> {
    if |fields| != 6 then None else
      var sip, offset := ReadInt(fields[3]), ReadInt(fields[5]);
      if sip.None? || offset.None? then None
      else Some(CallResultDetail(fields[0], fields[1], fields[2], sip.value, fields[4], offset.value))
  }

  function ReadDetails(rows: seq<seq<string>>): Option<seq<CallResultDetail>> {
    if rows == [] then Some([]) else
      var first, more := ReadDetail(rows[0]), ReadDetails(rows[1..]);
      if first.None? || more.None? then None else Some([first.value] + more.value)
  }

  // ---------- Every row is recovered ----------

  lemma {:induction false} QuotedRecovers(field: string, rest: string)
    requires rest == "" || rest[0] != '"'
    ensures Quoted(Doubled(field) + "\"" + rest) == Some((field, rest))
  {
    var s := Doubled(field) + "\"" + rest;
    if field == "" {
      assert s == "\"" + rest;
    } else {
      QuotedRecovers(field[1..], rest);
      var tail := Doubled(field[1..]) + "\"" + rest;
      if field[0] == '"' {
        assert s == "\"\"" + tail;
        assert s[2..] == tail;
      } else {
        assert s == [field[0]] + tail;
        assert s[1..] == tail;
      }
      assert field == [field[0]] + field[1..];
    }
  }

  lemma {:induction false} UnquotedRecovers(field: string, rest: string)
    requires !NeedsQuoting(field) && rest != "" && (rest[0] == ',' || rest[0] == '\n')
    ensures Unquoted(field + rest) == Some((field, rest))
  {
    if field == "" {
      assert field + rest == rest;
    } else {
      assert !Special(field[0]);
      assert forall i :: 0 <= i < |field[1..]| ==> field[1..][i] == field[i + 1];
      UnquotedRecovers(field[1..], rest);
      assert (field + rest)[1..] == field[1..] + rest;
      assert field == [field[0]] + field[1..];
    }
  }

  lemma FieldRecovers(field: string, rest: string)
    requires rest != "" && (rest[0] == ',' || rest[0] == '\n')
    ensures ReadField(FieldText(field) + rest) == Some((field, rest))
  {
    if NeedsQuoting(field) {
      QuotedRecovers(field, rest);
      QuotedText(Doubled(field), rest);
    } else {
      UnquotedRecovers(field, rest);
      PlainStart(field, rest);
    }
  }

  lemma QuotedText(d: string, rest: string)
    ensures var s := "\"" + d + "\"" + rest; s[0] == '"' && s[1..] == d + "\"" + rest
  {
  }

  lemma PlainStart(field: string, rest: string)
    requires !NeedsQuoting(field) && rest != "" && rest[0] != '"'
    ensures (field + rest)[0] != '"'
  {
    assert field != "" ==> !Special(field[0]);
  }

  // The row and the table seen from the front, as they are read.
  lemma RowFront(fields: seq<string>)
    requires |fields| > 1
    ensures RowText(fields) == FieldText(fields[0]) + "," + RowText(fields[1..])
  {
    ConcatFront(CellParts(fields));
    PartsFront(fields);
  }

  lemma PartsFront(fields: seq<string>)
    requires |fields| > 1
    ensures CellParts(fields)[1..] == CellParts(fields[1..])
  {
    var rest, tail := fields[1..], CellParts(fields[1..]);
    forall i | 0 <= i < |rest| ensures CellParts(fields)[1..][i] == tail[i] {
      assert rest[i] == fields[i + 1];
    }
  }

  lemma DetailsFront(details: seq<CallResultDetail>)
    requires details != []
    ensures DetailsText(details) == RowText(Fields(details[0])) + DetailsText(details[1..])
  {
    ConcatFront(Lines(details));
    LinesFront(details);
  }

  lemma LinesFront(details: seq<CallResultDetail>)
    requires details != []
    ensures Lines(details)[1..] == Lines(details[1..])
  {
    var rest, tail := details[1..], Lines(details[1..]);
    forall i | 0 <= i < |rest| ensures Lines(details)[1..][i] == tail[i] {
      assert rest[i] == details[i + 1];
    }
  }

  lemma {:induction false} RowRecovers(fields: seq<string>, rest: string)
    requires fields != []
    ensures ReadRecord(RowText(fields) + rest) == Some((fields, rest))
  {
    if |fields| == 1 {
      LastCell(fields[0], rest);
      assert fields == [fields[0]];
    } else {
      RowRecovers(fields[1..], rest);
      FirstCell(fields[0], RowText(fields[1..]) + rest);
      RowSplit(fields, rest);
      assert fields == [fields[0]] + fields[1..];
    }
  }

  lemma RowSplit(fields: seq<string>, rest: string)
    requires |fields| > 1
    ensures RowText(fields) + rest == FieldText(fields[0]) + "," + (RowText(fields[1..]) + rest)
  {
    RowFront(fields);
  }

  lemma LastCell(field: string, rest: string)
    ensures ReadRecord(RowText([field]) + rest) == Some(([field], rest))
  {
    var parts := CellParts([field]);
    assert parts[..0] == [] && parts[0] == FieldText(field) + "\n";
    assert Concat(parts) == Concat(parts[..0]) + parts[0];
    assert RowText([field]) == FieldText(field) + "\n";
    FieldRecovers(field, "\n" + rest);
    assert FieldText(field) + "\n" + rest == FieldText(field) + ("\n" + rest);
    assert ("\n" + rest)[1..] == rest;
  }

  lemma FirstCell(field: string, tail: string)
    requires ReadRecord(tail).Some?
    ensures ReadRecord(FieldText(field) + "," + tail)
      == Some(([field] + ReadRecord(tail).value.0, ReadRecord(tail).value.1))
  {
    FieldRecovers(field, "," + tail);
    assert FieldText(field) + "," + tail == FieldText(field) + ("," + tail);
    assert ("," + tail)[1..] == tail;
  }

  ghost function AllFields(details: seq<CallResultDetail>): seq<seq<string>> {
    if details == [] then [] else [Fields(details[0])] + AllFields(details[1..])
  }

  lemma {:induction false} RowsRecover(details: seq<CallResultDetail>)
    ensures ReadCsv(DetailsText(details)) == Some(AllFields(details))
  {
    if details != [] {
      DetailsFront(details);
      RowRecovers(Fields(details[0]), DetailsText(details[1..]));
      RowsRecover(details[1..]);
    }
  }

  lemma {:induction false} NatRecovers(n: nat)
    ensures NatTextual(NatText(n)) && ReadNat(NatText(n)) == n
  {
    var s := NatText(n);
    if n >= 10 {
      NatRecovers(n / 10);
      assert s[..|s| - 1] == NatText(n / 10);
    }
  }

  lemma IntRecovers(n: int)
    ensures ReadInt(IntText(n)) == Some(n)
  {
    if n < 0 {
      NatRecovers(-n);
      assert IntText(n)[1..] == NatText(-n);
    } else {
      NatRecovers(n);
    }
  }

  lemma {:induction false} DetailsRecover(details: seq<CallResultDetail>)
    ensures ReadDetails(AllFields(details)) == Some(details)
  {
    if details != [] {
      IntRecovers(details[0].finalSipCode);
      IntRecovers(details[0].startOffsetMs);
      DetailsRecover(details[1..]);
      assert details == [details[0]] + details[1..];
    }
  }

  lemma HeaderIsRow()
    ensures HEADER == RowText(COLUMNS)
  {
    ColumnsPlain();
    ConcatSix(CellParts(COLUMNS));
  }

  lemma ColumnsPlain()
    ensures forall i :: 0 <= i < |COLUMNS| ==> FieldText(COLUMNS[i]) == COLUMNS[i]
  {
    assert forall i :: 0 <= i < |COLUMNS| ==> !NeedsQuoting(COLUMNS[i]);
  }

  lemma ConcatSix(parts: seq<string>)
    requires |parts| == 6
    ensures Concat(parts) == parts[0] + parts[1] + parts[2] + parts[3] + parts[4] + parts[5]
  {
    assert parts[..0] == [] && "" + parts[0] == parts[0];
    ConcatNext(parts, 0);
    ConcatNext(parts, 1);
    ConcatNext(parts, 2);
    ConcatNext(parts, 3);
    ConcatNext(parts, 4);
    ConcatNext(parts, 5);
    assert parts[..6] == parts;
  }

  lemma ConcatNext(parts: seq<string>, k: nat)
    requires k < |parts|
    ensures Concat(parts[..k + 1]) == Concat(parts[..k]) + parts[k]
  {
    assert parts[..k + 1][..k] == parts[..k];
  }

  // Reading the written file gives back the column names and every detail,
  // whatever strings the details hold.
  lemma CsvRoundTrip(details: seq<CallResultDetail>)
    ensures var rows := ReadCsv(HEADER + DetailsText(details));
      rows.Some? && rows.value != [] && rows.value[0] == COLUMNS && ReadDetails(rows.value[1..]) == Some(details)
  {
    TableRecovers(details);
    DetailsRecover(details);
  }

  // ---------- How it is written ----------

  ghost function Quotes(field: string): nat {
    if field == "" then 0 else (if field[0] == '"' then 1 else 0) + Quotes(field[1..])
  }

  lemma {:induction false} DoubledLength(field: string)
    ensures |Doubled(field)| == |field| + Quotes(field)
  {
    if field != "" {
      DoubledLength(field[1..]);
    }
  }

  // A field without quotes, commas and line breaks stands as it is; any other
  // one is put in quotes and grows by one more for each quote in it.
  lemma QuotedWhenNeeded(field: string)
    ensures if exists c <- field :: c in {'"', ',', '\n', '\r'} then
        var text := FieldText(field);
        |text| == |field| + 2 + Quotes(field) && text[0] == '"' && text[|text| - 1] == '"'
      else FieldText(field) == field
  {
    DoubledLength(field);
    if i :| 0 <= i < |field| && Special(field[i]) {
      assert field[i] in field;
    }
  }

  // Numbers have no leading zeros, so a number has one text only.
  lemma {:induction false} NoLeadingZero(n: nat)
    ensures NatText(n) != "" && (NatText(n)[0] == '0' <==> n == 0) && (n == 0 ==> NatText(n) == "0")
  {
    if n >= 10 {
      NoLeadingZero(n / 10);
    }
  }

  // Each cell stands under its column's name.
  lemma CellsByColumn(details: seq<CallResultDetail>, k: nat)
    requires k < |details|
    ensures var rows := ReadCsv(HEADER + DetailsText(details));
      rows.Some? && |rows.value| == |details| + 1 && |rows.value[0]| == 6 && |rows.value[k + 1]| == 6
    ensures var rows := ReadCsv(HEADER + DetailsText(details)).value;
      forall c :: 0 <= c < 6 ==>
        && (rows[0][c] == "callRunId" ==> rows[k + 1][c] == details[k].callRunId)
        && (rows[0][c] == "from" ==> rows[k + 1][c] == details[k].from)
        && (rows[0][c] == "toDid" ==> rows[k + 1][c] == details[k].toDid)
        && (rows[0][c] == "finalSipCode" ==> ReadInt(rows[k + 1][c]) == Some(details[k].finalSipCode))
        && (rows[0][c] == "failureCode" ==> rows[k + 1][c] == details[k].failureCode)
        && (rows[0][c] == "startOffsetMs" ==> ReadInt(rows[k + 1][c]) == Some(details[k].startOffsetMs))
  {
    TableRecovers(details);
    FieldsOfRow(details, k);
    ColumnOrder();
    IntRecovers(details[k].finalSipCode);
    IntRecovers(details[k].startOffsetMs);
  }

  lemma TableRecovers(details: seq<CallResultDetail>)
    ensures ReadCsv(HEADER + DetailsText(details)) == Some([COLUMNS] + AllFields(details))
  {
    HeaderIsRow();
    RowRecovers(COLUMNS, DetailsText(details));
    RowsRecover(details);
  }

  lemma {:induction false} FieldsOfRow(details: seq<CallResultDetail>, k: nat)
    requires k < |details|
    ensures |AllFields(details)| == |details| && AllFields(details)[k] == Fields(details[k])
  {
    if k > 0 {
      FieldsOfRow(details[1..], k - 1);
    } else {
      FieldsCount(details);
    }
  }

  lemma {:induction false} FieldsCount(details: seq<CallResultDetail>)
    ensures |AllFields(details)| == |details|
  {
    if details != [] {
      FieldsCount(details[1..]);
    }
  }

  lemma ColumnOrder()
    ensures |COLUMNS| == 6
    ensures COLUMNS[0] == "callRunId" && COLUMNS[1] == "from" && COLUMNS[2] == "toDid"
    ensures COLUMNS[3] == "finalSipCode" && COLUMNS[4] == "failureCode" && COLUMNS[5] == "startOffsetMs"
    ensures forall c, d :: 0 <= c < d < 6 ==> COLUMNS[c] != COLUMNS[d]
  {
    assert forall c, d :: 0 <= c < d < 6 ==> |COLUMNS[c]| != |COLUMNS[d]| || COLUMNS[c][0] != COLUMNS[d][0];
  }
}
