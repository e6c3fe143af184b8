/**
  The dashboard's CSV download, and a reader for section 2 of RFC 4180 that takes it back.

  Every cell is guarded against being read as a spreadsheet formula, then quoted.
*/
module Csv {
  import opened Prelude

  // ---------------------------------------------------------------- the writer

  /** White space as the regular expression class \s has it. */
  predicate IsSpace(c: char) {
    var n := c as int;
    || 9 <= n <= 13 || n == 32 || n == 0xA0 || n == 0x1680 || 0x2000 <= n <= 0x200A
    || n == 0x2028 || n == 0x2029 || n == 0x202F || n == 0x205F || n == 0x3000 || n == 0xFEFF
  }

  /** After leading white space comes a character that starts a formula. */
  predicate FormulaLike(s: string) {
    s != "" && (s[0] in {'=', '+', '-', '@'} || (IsSpace(s[0]) && FormulaLike(s[1..])))
  }

  /** The white space characters of \s. */
  const WHITE_SPACE: set<char> := {
    '\t', '\n', '\U{000B}', '\U{000C}', '\r', ' ', '\U{00A0}', '\U{1680}', '\U{2000}', '\U{2001}', '\U{2002}',
    '\U{2003}', '\U{2004}', '\U{2005}', '\U{2006}', '\U{2007}', '\U{2008}', '\U{2009}', '\U{200A}', '\U{2028}',
    '\U{2029}', '\U{202F}', '\U{205F}', '\U{3000}', '\U{FEFF}'}

  lemma SpaceExactly(c: char)
    ensures IsSpace(c) <==> c in WHITE_SPACE
  {
    var n := c as int;
    if IsSpace(c) && 9 <= n <= 13 { assert n == 9 || n == 10 || n == 11 || n == 12 || n == 13; }
  }

  /** Position k holds a character that starts a formula, and only white space stands before it. */
  ghost predicate FormulaAt(s: string, k: nat) {
    && k < |s| && s[k] in {'=', '+', '-', '@'}
    && forall j :: 0 <= j < k ==> s[j] in WHITE_SPACE
  }

  /** Which texts are formula-like. */
  lemma {:induction false} FormulaLikeExactly(s: string)
    ensures FormulaLike(s) <==> exists k: nat :: FormulaAt(s, k)
  {
    if s != "" {
      SpaceExactly(s[0]);
      hide IsSpace;
      FormulaLikeExactly(s[1..]);
      if s[0] in {'=', '+', '-', '@'} {
        assert FormulaAt(s, 0);
      } else {
        if k: nat :| FormulaAt(s[1..], k) {
          if IsSpace(s[0]) { FormulaLater(s, k); }
        }
        if k: nat :| FormulaAt(s, k) {
          assert k > 0 && s[0] in WHITE_SPACE;
          assert forall j :: 0 <= j < k - 1 ==> s[1..][j] == s[j + 1];
          assert FormulaAt(s[1..], k - 1);
        }
      }
    }
  }

  lemma FormulaLater(s: string, k: nat)
    requires s != "" && s[0] in WHITE_SPACE && FormulaAt(s[1..], k)
    ensures FormulaAt(s, k + 1)
  {
    assert forall j :: 0 < j < k + 1 ==> s[j] == s[1..][j - 1];
  }

  function Guarded(raw: string): string { if FormulaLike(raw) then "'" + raw else raw }

  function Doubled(s: string): string {
    if s == "" then "" else (if s[0] == '"' then "\"\"" else [s[0]]) + Doubled(s[1..])
  }

  function Quote(raw: string): string { "\"" + Doubled(Guarded(raw)) + "\"" }

  function JoinCells(cells: seq<string>): string
    requires cells != []
  {
    if |cells| == 1 then Quote(cells[0]) else Quote(cells[0]) + "," + JoinCells(cells[1..])
  }

  predicate IsTable(rows: seq<seq<string>>) {
    rows != [] && forall i :: 0 <= i < |rows| ==> rows[i] != []
  }

  function JoinRows(rows: seq<seq<string>>): string
    requires IsTable(rows)
  {
    if |rows| == 1 then JoinCells(rows[0]) else JoinCells(rows[0]) + "\r\n" + JoinRows(rows[1..])
  }

  const BOM: string := "\U{FEFF}"

  function Download(rows: seq<seq<string>>): string
    requires IsTable(rows)
  {
    BOM + JoinRows(rows)
  }

  /** One affected customer as the download sees it; dates are already in text form. */
  datatype Customer = Customer(
    customerName: Option<string>,
    customerCode: Option<string>,
    externalCustomerId: Option<string>,
    affectedFrom: Option<string>,
    restoredAt: Option<string>)

  /** The first text that is neither missing nor empty; the last one is taken as it is. */
  function DisplayName(c: Customer): string {
    if c.customerName.GetOr("") != "" then c.customerName.value
    else if c.customerCode.GetOr("") != "" then c.customerCode.value
    else c.externalCustomerId.GetOr("")
  }

  const HEADER: seq<string> := ["Código de incidente", "Título", "Cliente", "Afectado desde", "Restaurado"]

  function CustomerRow(code: string, title: string, c: Customer): seq<string> {
    [code, title, DisplayName(c), c.affectedFrom.GetOr(""), c.restoredAt.GetOr("")]
  }

  function CustomerRows(code: string, title: string, customers: seq<Customer>): (rows: seq<seq<string>>)
    ensures |rows| == |customers| && forall i :: 0 <= i < |rows| ==> |rows[i]| == 5
  {
    if customers == [] then [] else [CustomerRow(code, title, customers[0])] + CustomerRows(code, title, customers[1..])
  }

  /** The header, then a row per customer, or one row with only the incident when there is none. */
  function IncidentTable(code: string, title: string, customers: seq<Customer>): (rows: seq<seq<string>>)
    ensures IsTable(rows) && forall i :: 0 <= i < |rows| ==> |rows[i]| == 5
    ensures |rows| == 1 + if customers == [] then 1 else |customers|
  {
    [HEADER] + if customers == [] then [[code, title, "", "", ""]] else CustomerRows(code, title, customers)
  }

  // ---------------------------------------------------------------- the reader

  /** Text up to the closing quote, and what follows it. */
  function ReadEscaped(s: string): (r: Option<(string, string)>)
    ensures r.Some? ==> |r.value.1| < |s|
  {
    if s == "" then None
    else if s[0] != '"' then
      match ReadEscaped(s[1..])
      case None => None
      case Some((text, rest)) => Some(([s[0]] + text, rest))
    else if |s| > 1 && s[1] == '"' then
      match ReadEscaped(s[2..])
      case None => None
      case Some((text, rest)) => Some(("\"" + text, rest))
    else Some(("", s[1..]))
  }

  predicate IsTextData(c: char) { c != '"' && c != ',' && c != '\r' && c != '\n' }

  function ReadPlain(s: string): (r: (string, string))
    ensures |r.1| <= |s|
  {
    if s == "" || !IsTextData(s[0]) then ("", s)
    else
      var (text, rest) := ReadPlain(s[1..]);
      ([s[0]] + text, rest)
  }

  function ReadField(s: string): (r: Option<(string, string)>)
    ensures r.Some? ==> |r.value.1| <= |s|
  {
    if s != "" && s[0] == '"' then ReadEscaped(s[1..]) else Some(ReadPlain(s))
  }

  function ReadRecord(s: string): (r: Option<(seq<string>, string)>)
    ensures r.Some? ==> |r.value.1| <= |s|
    decreases |s|
  {
    match ReadField(s)
    case None => None
    case Some((field, rest)) =>
      if rest == "" || rest[0] != ',' then Some(([field], rest))
      else
        match ReadRecord(rest[1..])
        case None => None
        case Some((fields, after)) => Some(([field] + fields, after))
  }

  /** Records separated by CRLF; the last one may or may not be followed by CRLF. */
  function ReadFile(s: string): Option<seq<seq<string>>>
    decreases |s|
  {
    match ReadRecord(s)
    case None => None
    case Some((record, rest)) =>
      if rest == "" || rest == "\r\n" then Some([record])
      else if |rest| >= 2 && rest[..2] == "\r\n" then
        match ReadFile(rest[2..])
        case None => None
        case Some(records) => Some([record] + records)
      else None
  }

  // ---------------------------------------------------------------- round trip

  /** A quoted cell is read back whatever follows, unless a further quote follows. */
  lemma {:induction false} EscapedRoundTrip(s: string, rest: string)
    requires rest == "" || rest[0] != '"'
    ensures ReadEscaped(Doubled(s) + "\"" + rest) == Some((s, rest))
  {
    var text := Doubled(s) + "\"" + rest;
    if s == "" {
      assert text == "\"" + rest;
    } else {
      EscapedRoundTrip(s[1..], rest);
      var tail := Doubled(s[1..]) + "\"" + rest;
      assert s == [s[0]] + s[1..];
      if s[0] == '"' {
        assert text == "\"\"" + tail;
        assert text[2..] == tail;
      } else {
        assert text == [s[0]] + tail;
        assert text[1..] == tail;
      }
    }
  }

  lemma QuoteRoundTrip(raw: string, rest: string)
    requires rest == "" || rest[0] != '"'
    ensures ReadField(Quote(raw) + rest) == Some((Guarded(raw), rest))
  {
    EscapedRoundTrip(Guarded(raw), rest);
    assert (Quote(raw) + rest)[1..] == Doubled(Guarded(raw)) + "\"" + rest;
  }

  function GuardedCells(cells: seq<string>): (g: seq<string>)
    ensures |g| == |cells| && forall i :: 0 <= i < |g| ==> g[i] == Guarded(cells[i])
  {
    if cells == [] then [] else [Guarded(cells[0])] + GuardedCells(cells[1..])
  }

  function GuardedRows(rows: seq<seq<string>>): (g: seq<seq<string>>)
    ensures |g| == |rows| && forall i :: 0 <= i < |g| ==> g[i] == GuardedCells(rows[i])
  {
    if rows == [] then [] else [GuardedCells(rows[0])] + GuardedRows(rows[1..])
  }

  predicate EndsRecord(rest: string) { rest == "" || rest[0] == '\r' }

  lemma {:induction false} RecordRoundTrip(cells: seq<string>, rest: string)
    requires cells != [] && EndsRecord(rest)
    ensures ReadRecord(JoinCells(cells) + rest) == Some((GuardedCells(cells), rest))
  {
    hide Quote, ReadField, Guarded;
    if |cells| == 1 {
      QuoteRoundTrip(cells[0], rest);
      assert GuardedCells(cells) == [Guarded(cells[0])];
    } else {
      var more := JoinCells(cells[1..]) + rest;
      assert JoinCells(cells) + rest == Quote(cells[0]) + ("," + more);
      QuoteRoundTrip(cells[0], "," + more);
      assert ("," + more)[1..] == more;
      RecordRoundTrip(cells[1..], rest);
    }
  }

  lemma {:induction false} RowsRoundTrip(rows: seq<seq<string>>)
    requires IsTable(rows)
    ensures ReadFile(JoinRows(rows)) == Some(GuardedRows(rows))
    ensures JoinRows(rows) != ""
  {
    hide ReadRecord, GuardedCells;
    NotEmpty(rows[0]);
    if |rows| == 1 {
      RecordRoundTrip(rows[0], "");
      assert JoinCells(rows[0]) + "" == JoinCells(rows[0]);
      assert GuardedRows(rows) == [GuardedCells(rows[0])];
    } else {
      var more := JoinRows(rows[1..]);
      RowsRoundTrip(rows[1..]);
      assert JoinRows(rows) == JoinCells(rows[0]) + ("\r\n" + more);
      RecordRoundTrip(rows[0], "\r\n" + more);
      assert ("\r\n" + more)[..2] == "\r\n" && ("\r\n" + more)[2..] == more;
      assert |"\r\n" + more| > 2;
    }
  }

  lemma NotEmpty(cells: seq<string>)
    requires cells != []
    ensures JoinCells(cells) != ""
  {
  }

  /**
    Reading the download after its byte order mark gives back exactly the matrix of guarded cells,
    whatever commas, quotes and line breaks the cells contain.
  */
  lemma DownloadRoundTrip(rows: seq<seq<string>>)
    requires IsTable(rows)
    ensures Download(rows) != "" && Download(rows)[0] as int == 0xFEFF
    ensures ReadFile(Download(rows)[1..]) == Some(GuardedRows(rows))
  {
    RowsRoundTrip(rows);
    assert Download(rows)[1..] == JoinRows(rows);
  }

  // ---------------------------------------------------------------- what the guard loses

  /**
    A guarded cell is never read as a formula, guarding again changes nothing, and nothing is changed
    but for an apostrophe in front of a text that would be read as one.
  */
  lemma GuardIsSafe(raw: string)
    ensures !FormulaLike(Guarded(raw)) && Guarded(Guarded(raw)) == Guarded(raw)
    ensures Guarded(raw) == if exists k: nat :: FormulaAt(raw, k) then "'" + raw else raw
  {
    FormulaLikeExactly(raw);
    if FormulaLike(raw) {
      assert Guarded(raw)[0] == '\'';
    }
  }

  /**
    Exactly which texts the guard confuses: a formula-like text with the text that already has the
    apostrophe in front of it. Every other pair stays apart.
  */
  lemma GuardConfusesExactly(a: string, b: string)
    ensures Guarded(a) == Guarded(b) <==>
      (a == b || (FormulaLike(a) && b == "'" + a) || (FormulaLike(b) && a == "'" + b))
  {
    if FormulaLike(a) && FormulaLike(b) {
      assert ("'" + a)[1..] == a && ("'" + b)[1..] == b;
      assert a != "'" + b && b != "'" + a;
    } else if FormulaLike(a) {
      GuardIsSafe(a);
    } else if FormulaLike(b) {
      GuardIsSafe(b);
    }
  }

  /** Two such texts. */
  lemma GuardIsNotInjective()
    ensures "=x" != "'=x" && Guarded("=x") == Guarded("'=x")
  {
    assert FormulaLike("=x") && !FormulaLike("'=x");
  }

  /** A customer's line: incident, title, the customer's best available name, and the two dates. */
  predicate IsCustomerLine(cells: seq<string>, code: string, title: string, c: Customer) {
    && |cells| == 5
    && cells[0] == Guarded(code) && cells[1] == Guarded(title)
    && (c.customerName.Some? && c.customerName.value != "" ==> cells[2] == Guarded(c.customerName.value))
    && (c.customerName.GetOr("") == "" && c.customerCode.Some? && c.customerCode.value != "" ==>
          cells[2] == Guarded(c.customerCode.value))
    && (c.customerName.GetOr("") == c.customerCode.GetOr("") == "" ==>
      cells[2] == Guarded(c.externalCustomerId.GetOr("")))
    && cells[3] == Guarded(c.affectedFrom.GetOr("")) && cells[4] == Guarded(c.restoredAt.GetOr(""))
  }

  lemma {:induction false} RowsAreCustomerLines(code: string, title: string, customers: seq<Customer>, i: nat)
    requires i < |customers|
    ensures IsCustomerLine(GuardedCells(CustomerRows(code, title, customers)[i]), code, title, customers[i])
  {
    if i > 0 {
      RowsAreCustomerLines(code, title, customers[1..], i - 1);
      assert CustomerRows(code, title, customers)[i] == CustomerRows(code, title, customers[1..])[i - 1];
      hide IsCustomerLine;
    } else {
      hide Guarded;
    }
  }

  /** What a reader of the incident download gets: the header, then one line per customer in order, or one without. */
  lemma IncidentDownloadRoundTrip(code: string, title: string, customers: seq<Customer>)
    ensures var read := ReadFile(Download(IncidentTable(code, title, customers))[1..]);
      && read.Some?
      && |read.value| == 1 + (if customers == [] then 1 else |customers|)
      && read.value[0] == ["Código de incidente", "Título", "Cliente", "Afectado desde", "Restaurado"]
      && (customers == [] ==> read.value[1] == [Guarded(code), Guarded(title), "", "", ""])
      && forall i :: 0 <= i < |customers| ==> IsCustomerLine(read.value[i + 1], code, title, customers[i])
  {
    var table := IncidentTable(code, title, customers);
    DownloadRoundTrip(table);
    HeaderIsPlain();
    hide Download, ReadFile, IsCustomerLine, GuardedCells;
    forall i | 0 <= i < |customers|
      ensures IsCustomerLine(GuardedRows(table)[i + 1], code, title, customers[i])
    {
      RowsAreCustomerLines(code, title, customers, i);
      assert table[i + 1] == CustomerRows(code, title, customers)[i];
    }
    if customers == [] {
      assert table[1] == [code, title, "", "", ""];
      FiveCells(code, title);
    }
  }

  lemma FiveCells(code: string, title: string)
    ensures GuardedCells([code, title, "", "", ""]) == [Guarded(code), Guarded(title), "", "", ""]
  {
  }

  lemma HeaderIsPlain()
    ensures GuardedCells(HEADER) == HEADER
  {
    assert forall i :: 0 <= i < |HEADER| ==> Guarded(HEADER[i]) == HEADER[i];
  }
}
