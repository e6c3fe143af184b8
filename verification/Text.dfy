/**
  The small text formats: decimal numbers, the incident code `INC-<year>-<number>`, and the
  `board/pon` identifier with the split that reads it back.
*/
module Text {
  import opened Prelude

  predicate IsDigit(c: char) { '0' <= c <= '9' }

  predicate AllDigits(s: string) { forall i :: 0 <= i < |s| ==> IsDigit(s[i]) }

  function DigitChar(d: nat): (c: char)
    requires d < 10
    ensures IsDigit(c)
  {
    '0' + d as char
  }

  function DigitValue(c: char): (d: nat)
    requires IsDigit(c)
    ensures d < 10 && DigitChar(d) == c
  {
    (c - '0') as nat
  }

  function Decimal(n: nat): (s: string)
    ensures s != "" && AllDigits(s)
  {
    if n < 10 then [DigitChar(n)] else Decimal(n / 10) + [DigitChar(n % 10)]
  }

  function ValueOf(s: string): nat
    requires AllDigits(s)
  {
    if s == "" then 0 else 10 * ValueOf(s[..|s| - 1]) + DigitValue(s[|s| - 1])
  }

  lemma {:induction false} DecimalRoundTrip(n: nat)
    ensures ValueOf(Decimal(n)) == n
  {
    if n >= 10 {
      DecimalRoundTrip(n / 10);
      assert Decimal(n)[..|Decimal(n)| - 1] == Decimal(n / 10);
    }
  }

  lemma DigitsAre(d: nat)
    requires d < 10
    ensures DigitChar(d) == "0123456789"[d]
  {
  }

  /** Left-pads with zeros up to the width and never shortens. */
  function PadStart(s: string, width: nat): (r: string)
    ensures |r| == if |s| >= width then |s| else width
    ensures AllDigits(s) ==> AllDigits(r)
    decreases width - |s|
  {
    if |s| >= width then s else PadStart("0" + s, width)
  }

  lemma {:induction false} LeadingZero(s: string)
    requires AllDigits(s)
    ensures AllDigits("0" + s) && ValueOf("0" + s) == ValueOf(s)
  {
    if s == "" {
      assert "0" + s == "0";
      assert ValueOf("0"[..0]) == 0;
    } else {
      LeadingZero(s[..|s| - 1]);
      assert ("0" + s)[..|s|] == "0" + s[..|s| - 1];
    }
  }

  lemma {:induction false} PaddingKeepsValue(s: string, width: nat)
    requires AllDigits(s)
    ensures ValueOf(PadStart(s, width)) == ValueOf(s)
    decreases width - |s|
  {
    if |s| < width {
      LeadingZero(s);
      PaddingKeepsValue("0" + s, width);
    }
  }

  function IntText(i: int): string {
    if i >= 0 then Decimal(i) else "-" + Decimal(-i)
  }

  lemma IntTextIsInjective(a: int, b: int)
    requires IntText(a) == IntText(b)
    ensures a == b
  {
    if a >= 0 && b >= 0 {
      DecimalRoundTrip(a);
      DecimalRoundTrip(b);
    } else if a < 0 && b < 0 {
      assert IntText(a)[1..] == Decimal(-a) && IntText(b)[1..] == Decimal(-b);
      DecimalRoundTrip(-a);
      DecimalRoundTrip(-b);
    } else {
      StartsWithDigit(Max(a, b));
    }
  }

  lemma StartsWithDigit(n: int)
    requires n >= 0
    ensures IsDigit(IntText(n)[0])
  {
  }

  /** Text around the last separator is determined when the separator does not occur after it. */
  lemma LastSeparatorSplits(a: string, b: string, x: string, y: string, c: char)
    requires a + [c] + x == b + [c] + y
    requires c !in x && c !in y
    ensures a == b && x == y
  {
    var s := a + [c] + x;
    if |a| == |b| {
      assert a == s[..|a|] && b == s[..|a|];
      assert x == s[|a| + 1..] && y == s[|a| + 1..];
    } else if |a| < |b| {
      SeparatorInside(a, b, x, y, c);
    } else {
      SeparatorInside(b, a, y, x, c);
    }
  }

  lemma SeparatorInside(a: string, b: string, x: string, y: string, c: char)
    requires a + [c] + x == b + [c] + y && |a| < |b|
    ensures c in x
  {
    assert (b + [c] + y)[|b|] == c;
    assert x[|b| - |a| - 1] == (a + [c] + x)[|b|];
  }

  lemma NotADigit(s: string, c: char)
    requires AllDigits(s) && !IsDigit(c)
    ensures c !in s
  {
  }

  // ---------------------------------------------------------------- incident codes

  function IncidentCode(year: int, number: nat): string {
    "INC-" + IntText(year) + "-" + PadStart(Decimal(number), 6)
  }

  /** The number of a code is printed in full, with leading zeros up to six digits. */
  lemma CodeSays(year: nat, number: nat) returns (digits: string)
    ensures IncidentCode(year, number) == "INC-" + Decimal(year) + "-" + digits
    ensures AllDigits(digits) && ValueOf(digits) == number && ValueOf(Decimal(year)) == year
    ensures |digits| == if |Decimal(number)| >= 6 then |Decimal(number)| else 6
  {
    digits := PadStart(Decimal(number), 6);
    PaddingKeepsValue(Decimal(number), 6);
    DecimalRoundTrip(number);
    DecimalRoundTrip(year);
  }

  /** Different (year, number) pairs have different codes, also when the number has more than six digits. */
  lemma IncidentCodeIsInjective(year: int, number: nat, otherYear: int, otherNumber: nat)
    ensures IncidentCode(year, number) == IncidentCode(otherYear, otherNumber)
      <==> year == otherYear && number == otherNumber
  {
    if IncidentCode(year, number) == IncidentCode(otherYear, otherNumber) {
      var n, m := PadStart(Decimal(number), 6), PadStart(Decimal(otherNumber), 6);
      NotADigit(n, '-');
      NotADigit(m, '-');
      LastSeparatorSplits("INC-" + IntText(year), "INC-" + IntText(otherYear), n, m, '-');
      assert IntText(year) == ("INC-" + IntText(year))[4..];
      assert IntText(otherYear) == ("INC-" + IntText(otherYear))[4..];
      IntTextIsInjective(year, otherYear);
      PaddingKeepsValue(Decimal(number), 6);
      PaddingKeepsValue(Decimal(otherNumber), 6);
      DecimalRoundTrip(number);
      DecimalRoundTrip(otherNumber);
    }
  }

  // ---------------------------------------------------------------- PON identifiers

  function PonIdentifier(board: nat, pon: nat): string {
    Decimal(board) + "/" + Decimal(pon)
  }

  function SplitOn(s: string, c: char): (parts: seq<string>)
    ensures parts != []
  {
    if s == "" then [""]
    else if s[0] == c then [""] + SplitOn(s[1..], c)
    else
      var rest := SplitOn(s[1..], c);
      [[s[0]] + rest[0]] + rest[1..]
  }

  predicate IsPortPart(s: string) { s != "" && AllDigits(s) }

  /** The two port parts of an identifier, or None when it does not use the board/port format. */
  function ParsePonIdentifier(s: string): Option<(string, string)> {
    var parts := SplitOn(s, '/');
    if |parts| >= 2 && IsPortPart(parts[0]) && IsPortPart(parts[1]) then Some((parts[0], parts[1])) else None
  }

  lemma {:induction false} SplitWithout(s: string, c: char)
    requires c !in s
    ensures SplitOn(s, c) == [s]
  {
    if s != "" {
      SplitWithout(s[1..], c);
      assert [s[0]] + s[1..] == s;
    }
  }

  lemma {:induction false} SplitAtFirst(a: string, rest: string, c: char)
    requires c !in a
    ensures SplitOn(a + [c] + rest, c) == [a] + SplitOn(rest, c)
  {
    var s := a + [c] + rest;
    if a == "" {
      assert s[1..] == rest;
    } else {
      SplitAtFirst(a[1..], rest, c);
      assert s[1..] == a[1..] + [c] + rest;
      assert [a[0]] + a[1..] == a;
    }
  }

  /** Splitting a printed identifier returns both parts, as digits, and they read back as the same numbers. */
  lemma PonIdentifierRoundTrip(board: nat, pon: nat)
    ensures ParsePonIdentifier(PonIdentifier(board, pon)) == Some((Decimal(board), Decimal(pon)))
    ensures ValueOf(Decimal(board)) == board && ValueOf(Decimal(pon)) == pon
  {
    NotADigit(Decimal(board), '/');
    NotADigit(Decimal(pon), '/');
    SplitAtFirst(Decimal(board), Decimal(pon), '/');
    SplitWithout(Decimal(pon), '/');
    DecimalRoundTrip(board);
    DecimalRoundTrip(pon);
  }

  lemma PonIdentifierIsInjective(board: nat, pon: nat, otherBoard: nat, otherPon: nat)
    ensures PonIdentifier(board, pon) == PonIdentifier(otherBoard, otherPon)
      <==> board == otherBoard && pon == otherPon
  {
    PonIdentifierRoundTrip(board, pon);
    PonIdentifierRoundTrip(otherBoard, otherPon);
  }

  ghost predicate PortFormat(s: string, board: string, pon: string, rest: string) {
    IsPortPart(board) && IsPortPart(pon) && (s == board + "/" + pon || s == board + "/" + pon + "/" + rest)
  }

  lemma PortFormatParses(s: string, board: string, pon: string, rest: string)
    requires PortFormat(s, board, pon, rest)
    ensures ParsePonIdentifier(s) == Some((board, pon))
  {
    NotADigit(board, '/');
    NotADigit(pon, '/');
    if s == board + "/" + pon {
      SplitAtFirst(board, pon, '/');
      SplitWithout(pon, '/');
    } else {
      assert s == board + ['/'] + (pon + ['/'] + rest);
      SplitAtFirst(board, pon + ['/'] + rest, '/');
      SplitAtFirst(pon, rest, '/');
    }
  }

  lemma ParsedHasPortFormat(s: string) returns (rest: string)
    requires ParsePonIdentifier(s).Some?
    ensures PortFormat(s, ParsePonIdentifier(s).value.0, ParsePonIdentifier(s).value.1, rest)
  {
    var parts := SplitOn(s, '/');
    SplitHead(s, '/');
    var tail := s[|parts[0]| + 1..];
    SplitHead(tail, '/');
    assert SplitOn(tail, '/')[0] == parts[1];
    if |parts| == 2 {
      rest := "";
      assert s == parts[0] + "/" + parts[1];
    } else {
      rest := tail[|parts[1]| + 1..];
      assert s == parts[0] + "/" + parts[1] + "/" + rest;
    }
  }

  /**
    Exactly the texts that are accepted: two digit runs separated by a slash, followed by nothing
    or by a further slash and anything at all, which is ignored.
  */
  lemma ParseAcceptsExactly(s: string, board: string, pon: string)
    ensures ParsePonIdentifier(s) == Some((board, pon)) <==> exists rest :: PortFormat(s, board, pon, rest)
  {
    if ParsePonIdentifier(s) == Some((board, pon)) {
      var rest := ParsedHasPortFormat(s);
    }
    if rest :| PortFormat(s, board, pon, rest) {
      PortFormatParses(s, board, pon, rest);
    }
  }

  /** The first part of a split, and what the others are the split of. */
  lemma {:induction false} SplitHead(s: string, c: char)
    ensures var parts := SplitOn(s, c);
      && (|parts| == 1 ==> s == parts[0])
      && (|parts| > 1 ==>
            |parts[0]| < |s| && s == parts[0] + [c] + s[|parts[0]| + 1..]
              && parts[1..] == SplitOn(s[|parts[0]| + 1..], c))
  {
    if s != "" && s[0] != c {
      SplitHead(s[1..], c);
      var rest := SplitOn(s[1..], c);
      if |rest| > 1 {
        assert s[1..][|rest[0]| + 1..] == s[|rest[0]| + 2..];
      }
    }
  }
}
