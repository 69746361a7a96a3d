/** Text of the operation file: quoting of fields (pkg/bench/csv.go), decimal
    numbers, and a reader of tab-separated records after section 2 of RFC 4180
    with comment lines and CR LF line ends. */
module CsvText {
  import opened Basics
  import opened Arithmetic

  // ----- quoting ----------------------------------------------------------------------

  /** Unicode white space. */
  predicate IsSpace(c: char) {
    || c in {' ', '\t', '\n', '\r', '\U{0B}', '\U{0C}', '\U{85}', '\U{A0}', '\U{1680}'}
    || '\U{2000}' <= c <= '\U{200A}'
    || c in {'\U{2028}', '\U{2029}', '\U{202F}', '\U{205F}', '\U{3000}'}
  }

  predicate IsSpecial(c: char) {
    c == '"' || c == '\r' || c == '\n'
  }

  predicate FieldNeedsQuotes(field: string) {
    if field == "" then false
    else if field == "\\." || '\t' in field || exists c :: c in field && IsSpecial(c) then true
    else IsSpace(field[0])
  }

  /** Every quote doubled. */
  function Doubled(s: string): string {
    if s == "" then "" else Encoded(s[0]) + Doubled(s[1..])
  }

  function Escaped(field: string): string {
    if FieldNeedsQuotes(field) then "\"" + Doubled(field) + "\"" else field
  }

  /** A field is written as it is exactly when it is empty, or neither begins with
      white space, nor is a backslash and a dot, nor holds a tab, quote or line end. */
  lemma WrittenAsIsIff(field: string)
    ensures Escaped(field) == field <==>
      field == "" || (!IsSpace(field[0]) && field != "\\."
                      && forall k :: 0 <= k < |field| ==>
                           field[k] != '\t' && field[k] != '"' && field[k] != '\r' && field[k] != '\n')
  {
    DoubledIsLonger(field);
    assert FieldNeedsQuotes(field) ==> |Escaped(field)| == |Doubled(field)| + 2;
    forall k | 0 <= k < |field| && (field[k] == '\t' || field[k] == '"' || field[k] == '\r' || field[k] == '\n')
      ensures FieldNeedsQuotes(field)
    {
      assert field[k] in field;
    }
  }

  lemma {:induction false} DoubledIsLonger(s: string)
    ensures |Doubled(s)| >= |s|
  {
    if s != "" {
      DoubledIsLonger(s[1..]);
    }
  }

  /** The position of the first special character, or the length. */
  function IndexAny(s: string): (i: nat)
    ensures i <= |s| && (forall k :: 0 <= k < i ==> !IsSpecial(s[k])) && (i < |s| ==> IsSpecial(s[i]))
  {
    if s == "" || IsSpecial(s[0]) then 0 else 1 + IndexAny(s[1..])
  }

  lemma {:induction false} DoubledPlain(s: string, rest: string)
    requires forall k :: 0 <= k < |s| ==> s[k] != '"'
    ensures Doubled(s + rest) == s + Doubled(rest)
  {
    if s == "" {
      assert s + rest == rest;
    } else {
      assert (s + rest)[1..] == s[1..] + rest;
      DoubledPlain(s[1..], rest);
      assert [s[0]] + (s[1..] + Doubled(rest)) == s + Doubled(rest);
    }
  }

  /** What one special character becomes. */
  function Encoded(c: char): string {
    if c == '"' then "\"\"" else [c]
  }

  lemma Regroup(a: string, b: string, c: string)
    ensures a + (b + c) == (a + b) + c
  {
  }

  method CsvEscapeString(field: string) returns (r: string)
    ensures r == Escaped(field)
  {
    if !FieldNeedsQuotes(field) {
      return field;
    }
    var w := "\"";
    var rest := field;
    while |rest| > 0
      invariant w + Doubled(rest) == "\"" + Doubled(field)
      decreases |rest|
    {
      var i := IndexAny(rest);
      VerbatimStep(w, rest, i);
      w := w + rest[..i];
      rest := rest[i..];
      if |rest| > 0 {
        SpecialStep(w, rest);
        w := WriteSpecial(w, rest[0]);
        rest := rest[1..];
      }
    }
    assert w + Doubled(rest) == w;
    r := w + "\"";
  }

  method WriteSpecial(w: string, c: char) returns (r: string)
    requires IsSpecial(c)
    ensures r == w + Encoded(c)
  {
    match c
    case '"' => r := w + "\"\"";
    case '\r' => r := w + "\r";
    case '\n' => r := w + "\n";
  }

  lemma VerbatimStep(w: string, rest: string, i: nat)
    requires i == IndexAny(rest)
    ensures (w + rest[..i]) + Doubled(rest[i..]) == w + Doubled(rest)
  {
    DoubledPlain(rest[..i], rest[i..]);
    assert rest == rest[..i] + rest[i..];
    Regroup(w, rest[..i], Doubled(rest[i..]));
  }

  lemma SpecialStep(w: string, rest: string)
    requires rest != ""
    ensures (w + Encoded(rest[0])) + Doubled(rest[1..]) == w + Doubled(rest)
  {
    Regroup(w, Encoded(rest[0]), Doubled(rest[1..]));
  }

  // ----- reading fields and records ----------------------------------------------------

  datatype FieldResult = Field(text: string, rest: string) | BadField

  datatype RecordResult = Record(fields: seq<string>, rest: string) | BadRecord

  /** The end of a line, where a carriage return before a line feed or the end of
      the text belongs to the line end. */
  predicate AtLineEnd(s: string) {
    s == "" || s == "\r" || s[0] == '\n' || (|s| > 1 && s[0] == '\r' && s[1] == '\n')
  }

  predicate AtDelimiter(s: string) {
    AtLineEnd(s) || s[0] == '\t'
  }

  /** A quoted field after its opening quote. */
  function ParseQuoted(s: string): (r: FieldResult)
    ensures r.Field? ==> |r.rest| < |s|
  {
    if s == "" then BadField
    else if s[0] == '"' then
      if |s| > 1 && s[1] == '"' then Prepend('"', ParseQuoted(s[2..]))
      else if AtDelimiter(s[1..]) then Field("", s[1..])
      else BadField
    else if |s| > 1 && s[0] == '\r' && s[1] == '\n' then Prepend('\n', ParseQuoted(s[2..]))
    else Prepend(s[0], ParseQuoted(s[1..]))
  }

  function Prepend(c: char, r: FieldResult): FieldResult {
    if r.Field? then Field([c] + r.text, r.rest) else BadField
  }

  function ParseBare(s: string): (r: FieldResult)
    ensures r.Field? ==> |r.rest| <= |s|
  {
    if AtDelimiter(s) then Field("", s)
    else if s[0] == '"' then BadField
    else Prepend(s[0], ParseBare(s[1..]))
  }

  function ParseField(s: string): (r: FieldResult)
    ensures r.Field? ==> |r.rest| <= |s|
  {
    if s != "" && s[0] == '"' then ParseQuoted(s[1..]) else ParseBare(s)
  }

  function SkipLineEnd(s: string): (r: string)
    ensures |r| <= |s| && (s != "" ==> |r| < |s|)
  {
    if |s| > 1 && s[0] == '\r' && s[1] == '\n' then s[2..] else if s == "" then s else s[1..]
  }

  function ParseRecord(s: string): (r: RecordResult)
    ensures r.Record? ==> |r.rest| <= |s| && (s != "" ==> |r.rest| < |s|)
    decreases |s|
  {
    match ParseField(s)
    case BadField => BadRecord
    case Field(text, rest) =>
      if rest != "" && rest[0] == '\t' then
        match ParseRecord(rest[1..])
        case BadRecord => BadRecord
        case Record(fields, after) => Record([text] + fields, after)
      else Record([text], SkipLineEnd(rest))
  }

  /** Everything after the current line. */
  function SkipLine(s: string): (r: string)
    ensures |r| <= |s| && (s != "" ==> |r| < |s|)
  {
    if s == "" then "" else if s[0] == '\n' then s[1..] else SkipLine(s[1..])
  }

  datatype Next = Eof | Bad | Got(fields: seq<string>, rest: string)

  /** The next record, past empty lines and comment lines. */
  function NextRecord(s: string): (r: Next)
    ensures r.Got? ==> |r.rest| < |s|
    decreases |s|
  {
    if s == "" then Eof
    else if AtLineEnd(s) then NextRecord(SkipLineEnd(s))
    else if s[0] == '#' then NextRecord(SkipLine(s))
    else
      match ParseRecord(s)
      case BadRecord => Bad
      case Record(fields, rest) => Got(fields, rest)
  }

  // ----- what quoting preserves -----------------------------------------------------------

  /** The text with every CR LF pair replaced by a line feed. */
  function CrLfToLf(s: string): (r: string)
    ensures |r| <= |s|
  {
    if s == "" then ""
    else if |s| > 1 && s[0] == '\r' && s[1] == '\n' then "\n" + CrLfToLf(s[2..])
    else [s[0]] + CrLfToLf(s[1..])
  }

  predicate HasCrLf(s: string) {
    exists i :: 0 <= i < |s| - 1 && s[i] == '\r' && s[i + 1] == '\n'
  }

  lemma {:induction false} CrLfToLfIff(s: string)
    ensures CrLfToLf(s) == s <==> !HasCrLf(s)
  {
    if s != "" {
      if |s| > 1 && s[0] == '\r' && s[1] == '\n' {
        assert |CrLfToLf(s)| < |s|;
      } else {
        CrLfToLfIff(s[1..]);
        assert s == [s[0]] + s[1..];
        if i :| 0 <= i < |s| - 1 && s[i] == '\r' && s[i + 1] == '\n' {
          assert i > 0;
          assert s[1..][i - 1] == '\r' && s[1..][i] == '\n';
        }
        if j :| 0 <= j < |s[1..]| - 1 && s[1..][j] == '\r' && s[1..][j + 1] == '\n' {
          assert s[j + 1] == '\r' && s[j + 2] == '\n';
        }
      }
    }
  }

  /** No character that ends or quotes a field. */
  predicate Plain(s: string) {
    forall i :: 0 <= i < |s| ==> s[i] != '\t' && !IsSpecial(s[i])
  }

  /** The cell reads back as the value, whatever delimiter follows. */
  ghost predicate Reads(cell: string, value: string) {
    forall rest: string :: AtDelimiter(rest) ==> ParseField(cell + rest) == Field(value, rest)
  }

  lemma {:induction false} BareReadsBefore(s: string, rest: string)
    requires Plain(s) && AtDelimiter(rest)
    ensures ParseBare(s + rest) == Field(s, rest)
  {
    if s == "" {
      assert s + rest == rest;
    } else {
      assert (s + rest)[1..] == s[1..] + rest;
      BareReadsBefore(s[1..], rest);
      assert [s[0]] + s[1..] == s;
    }
  }

  lemma PlainReads(s: string)
    requires Plain(s)
    ensures Reads(s, s)
  {
    forall rest: string | AtDelimiter(rest) ensures ParseField(s + rest) == Field(s, rest) {
      BareReadsBefore(s, rest);
    }
  }

  lemma ParseDoubledQuote(t: string)
    ensures ParseQuoted("\"\"" + t) == Prepend('"', ParseQuoted(t))
  {
    assert ("\"\"" + t)[2..] == t;
  }

  lemma ParseCrLf(t: string)
    ensures ParseQuoted("\r\n" + t) == Prepend('\n', ParseQuoted(t))
  {
    assert ("\r\n" + t)[2..] == t;
  }

  lemma ParseChar(c: char, t: string)
    requires c != '"' && !(c == '\r' && t != "" && t[0] == '\n')
    ensures ParseQuoted([c] + t) == Prepend(c, ParseQuoted(t))
  {
    assert ([c] + t)[1..] == t;
  }

  lemma DoubledSplits(f: string, tail: string)
    requires f != ""
    ensures Doubled(f) + tail == Encoded(f[0]) + (Doubled(f[1..]) + tail)
  {
    Regroup(Encoded(f[0]), Doubled(f[1..]), tail);
  }

  lemma EncodedHead(c: char, tail: string)
    ensures (Encoded(c) + tail)[0] == c
  {
  }

  lemma DoubledHead(f: string, tail: string)
    requires f != ""
    ensures Doubled(f) + tail == Encoded(f[0]) + (Doubled(f[1..]) + tail)
    ensures (Doubled(f) + tail)[0] == f[0]
  {
    DoubledSplits(f, tail);
    EncodedHead(f[0], Doubled(f[1..]) + tail);
  }

  /** A character that is not the start of a CR LF pair. */
  lemma QuotedCharReads(f: string, tail: string)
    requires f != "" && tail != "" && tail[0] == '"'
    requires !(|f| > 1 && f[0] == '\r' && f[1] == '\n')
    ensures ParseQuoted(Doubled(f) + tail) == Prepend(f[0], ParseQuoted(Doubled(f[1..]) + tail))
  {
    var t := Doubled(f[1..]) + tail;
    DoubledHead(f, tail);
    if f[0] == '"' {
      ParseDoubledQuote(t);
    } else {
      if |f| > 1 {
        DoubledHead(f[1..], tail);
      }
      ParseChar(f[0], t);
    }
  }

  lemma QuotedCrLfReads(f: string, tail: string)
    requires |f| > 1 && f[0] == '\r' && f[1] == '\n'
    ensures ParseQuoted(Doubled(f) + tail) == Prepend('\n', ParseQuoted(Doubled(f[2..]) + tail))
  {
    DoubledPlain("\r\n", f[2..]);
    assert f == "\r\n" + f[2..];
    assert Doubled(f) + tail == "\r\n" + (Doubled(f[2..]) + tail);
    ParseCrLf(Doubled(f[2..]) + tail);
  }

  lemma ClosingQuoteReads(rest: string)
    requires AtDelimiter(rest)
    ensures ParseQuoted("\"" + rest) == Field("", rest)
  {
    assert ("\"" + rest)[1..] == rest;
  }

  lemma {:induction false} QuotedReadsBefore(f: string, rest: string)
    requires AtDelimiter(rest)
    ensures ParseQuoted(Doubled(f) + ("\"" + rest)) == Field(CrLfToLf(f), rest)
    decreases |f|
  {
    var tail := "\"" + rest;
    if f == "" {
      assert Doubled(f) + tail == tail;
      ClosingQuoteReads(rest);
    } else if |f| > 1 && f[0] == '\r' && f[1] == '\n' {
      QuotedCrLfReads(f, tail);
      QuotedReadsBefore(f[2..], rest);
    } else {
      QuotedCharReads(f, tail);
      QuotedReadsBefore(f[1..], rest);
    }
  }

  lemma Unwrap(body: string, rest: string)
    ensures var s := "\"" + body + "\"" + rest;
      s != "" && s[0] == '"' && s[1..] == body + ("\"" + rest)
  {
  }

  /** An escaped field reads back with CR LF pairs turned into line feeds. */
  lemma EscapedReads(f: string)
    ensures Reads(Escaped(f), CrLfToLf(f))
  {
    if FieldNeedsQuotes(f) {
      forall rest: string | AtDelimiter(rest) ensures ParseField(Escaped(f) + rest) == Field(CrLfToLf(f), rest) {
        QuotedReadsBefore(f, rest);
        Unwrap(Doubled(f), rest);
      }
    } else {
      assert Plain(f) by {
        forall i | 0 <= i < |f| ensures f[i] != '\t' && !IsSpecial(f[i]) {
          assert f[i] in f;
        }
      }
      PlainReads(f);
      CrLfToLfIff(f);
    }
  }

  // ----- records ------------------------------------------------------------------------------

  function Join(cells: seq<string>): string
    requires |cells| > 0
  {
    if |cells| == 1 then cells[0] else cells[0] + ("\t" + Join(cells[1..]))
  }

  /** The last cell of a line. */
  lemma LastCellReads(cell: string, value: string, rest: string)
    requires Reads(cell, value)
    ensures ParseRecord(cell + ("\n" + rest)) == Record([value], rest)
  {
    var after := "\n" + rest;
    assert AtDelimiter(after) && after[1..] == rest;
    assert ParseField(cell + after) == Field(value, after);
  }

  /** A cell before others. */
  lemma CellBeforeReads(cell: string, value: string, line: string, values: seq<string>, rest: string)
    requires Reads(cell, value) && ParseRecord(line) == Record(values, rest)
    ensures ParseRecord(cell + ("\t" + line)) == Record([value] + values, rest)
  {
    var more := "\t" + line;
    assert AtDelimiter(more) && more[1..] == line;
    assert ParseField(cell + more) == Field(value, more);
  }

  lemma JoinTail(cell: string, line: string, after: string)
    ensures cell + ("\t" + line) + after == cell + ("\t" + (line + after))
  {
  }

  /** A line of cells reads back as the record of their values. */
  lemma {:induction false} LineReads(cells: seq<string>, values: seq<string>, rest: string)
    requires |cells| == |values| > 0
    requires forall i :: 0 <= i < |cells| ==> Reads(cells[i], values[i])
    ensures ParseRecord(Join(cells) + ("\n" + rest)) == Record(values, rest)
    decreases |cells|
  {
    if |cells| == 1 {
      LastCellReads(cells[0], values[0], rest);
      assert values == [values[0]];
    } else {
      LineReads(cells[1..], values[1..], rest);
      CellBeforeReads(cells[0], values[0], Join(cells[1..]) + ("\n" + rest), values[1..], rest);
      JoinTail(cells[0], Join(cells[1..]), "\n" + rest);
      assert values == [values[0]] + values[1..];
    }
  }

  // ----- decimal numbers ------------------------------------------------------------------------

  const DIGITS := "0123456789"

  function Decimal(n: nat): string {
    if n < 10 then [DIGITS[n]] else Decimal(n / 10) + [DIGITS[n % 10]]
  }

  function FormatInt(n: int): string {
    if n < 0 then "-" + Decimal(-n) else Decimal(n)
  }

  function DigitValue(c: char): Option<nat> {
    if '0' <= c <= '9' then Some(c as int - '0' as int) else None
  }

  function ParseDigits(s: string): Option<nat> {
    if s == "" then None
    else
      match DigitValue(s[|s| - 1])
      case None => None
      case Some(d) =>
        if |s| == 1 then Some(d)
        else
          match ParseDigits(s[..|s| - 1])
          case None => None
          case Some(n) => Some(n * 10 + d)
  }

  /** A signed 64-bit decimal. */
  function ParseInt(s: string): Option<int> {
    var negative := s != "" && s[0] == '-';
    var digits := if s != "" && (s[0] == '-' || s[0] == '+') then s[1..] else s;
    match ParseDigits(digits)
    case None => None
    case Some(n) =>
      var v: int := if negative then -(n as int) else n;
      if IsInt64(v) then Some(v) else None
  }

  /** An unsigned 16-bit decimal. */
  function ParseUint16(s: string): Option<uint16> {
    match ParseDigits(s)
    case None => None
    case Some(n) => if n < 0x1_0000 then Some(n) else None
  }

  lemma DigitReads(d: nat)
    requires d < 10
    ensures DigitValue(DIGITS[d]) == Some(d)
  {
  }

  lemma {:induction false} DecimalReads(n: nat)
    ensures ParseDigits(Decimal(n)) == Some(n) && Decimal(n) != "" && '0' <= Decimal(n)[0] <= '9'
    ensures Plain(Decimal(n))
  {
    if n < 10 {
      DigitReads(n);
    } else {
      DecimalReads(n / 10);
      DigitReads(n % 10);
      var s := Decimal(n);
      assert s[..|s| - 1] == Decimal(n / 10);
    }
  }

  /** Only digits read as a number, and any digits do. */
  lemma {:induction false} DigitsReadIff(s: string)
    ensures ParseDigits(s).Some? <==> s != "" && forall k :: 0 <= k < |s| ==> '0' <= s[k] <= '9'
  {
    if |s| > 1 {
      var init := s[..|s| - 1];
      DigitsReadIff(init);
      assert s == init + [s[|s| - 1]];
      if forall k :: 0 <= k < |s| ==> '0' <= s[k] <= '9' {
        forall k | 0 <= k < |init| ensures '0' <= init[k] <= '9' {
          assert init[k] == s[k];
        }
      }
      if ParseDigits(s).Some? {
        forall k | 0 <= k < |s| ensures '0' <= s[k] <= '9' {
          assert k < |init| ==> s[k] == init[k];
        }
      }
    }
  }

  /** A number is written as the only digits without a leading zero that read as it. */
  lemma DecimalIsCanonical(n: nat, s: string)
    ensures s == Decimal(n) <==> ParseDigits(s) == Some(n) && (|s| == 1 || s[0] != '0')
  {
    DecimalReads(n);
    if ParseDigits(s) == Some(n) && (|s| == 1 || s[0] != '0') {
      Canonical(n, s);
    }
    NoLeadingZero(n);
  }

  lemma {:induction false} NoLeadingZero(n: nat)
    ensures n > 0 ==> Decimal(n)[0] != '0'
    ensures n < 10 ==> |Decimal(n)| == 1
  {
    if n >= 10 {
      NoLeadingZero(n / 10);
      DecimalReads(n / 10);
    }
  }

  lemma {:induction false} Canonical(n: nat, s: string)
    requires ParseDigits(s) == Some(n) && (|s| == 1 || s[0] != '0')
    ensures s == Decimal(n)
    ensures |s| > 1 ==> n >= 10
  {
    if |s| > 1 {
      var init, m := s[..|s| - 1], ParseDigits(s[..|s| - 1]).value;
      Canonical(m, init);
      if |init| == 1 {
        assert m > 0;
      }
      assert n / 10 == m && DigitValue(s[|s| - 1]) == Some(n % 10);
      assert s == init + [s[|s| - 1]];
    }
  }

  /** A number without a sign. */
  lemma UnsignedReads(digits: string, n: nat)
    requires digits != "" && '0' <= digits[0] <= '9' && ParseDigits(digits) == Some(n)
    ensures IsInt64(n) ==> ParseInt(digits) == Some(n)
  {
  }

  lemma SignedReads(digits: string, n: nat, text: string)
    requires ParseDigits(digits) == Some(n) && text == "-" + digits
    ensures IsInt64(-(n as int)) ==> ParseInt(text) == Some(-(n as int))
  {
    assert text[1..] == digits;
  }

  lemma SignIsPlain(digits: string)
    requires Plain(digits)
    ensures Plain("-" + digits)
  {
  }

  lemma IntReads(n: int)
    requires IsInt64(n)
    ensures ParseInt(FormatInt(n)) == Some(n) && Plain(FormatInt(n))
  {
    var magnitude: nat := if n < 0 then -n else n;
    var digits := Decimal(magnitude);
    DecimalReads(magnitude);
    UnsignedReads(digits, magnitude);
    SignedReads(digits, magnitude, "-" + digits);
    SignIsPlain(digits);
  }

  lemma Uint16Reads(n: uint16)
    ensures ParseUint16(Decimal(n)) == Some(n) && Plain(Decimal(n))
  {
    DecimalReads(n);
  }

  lemma DecimalTextReads(n: nat)
    ensures Reads(Decimal(n), Decimal(n))
  {
    DecimalReads(n);
    PlainReads(Decimal(n));
  }

  lemma IntTextReads(n: int)
    requires IsInt64(n)
    ensures Reads(FormatInt(n), FormatInt(n))
  {
    IntReads(n);
    PlainReads(FormatInt(n));
  }
}
