/** Writing operations as tab-separated text and loading them back
    (`Operations.CSV` and `OperationsFromCSV` in pkg/bench/ops.go). */
module CsvFile {
  import opened Basics
  import opened Operations
  import opened CsvText

  /** How instants are written and read. */
  datatype TimeCodec = TimeCodec(format: Time -> string, parse: string -> Option<Time>)
  {
    /** Every instant is written as plain, non-empty text that reads back as itself. */
    ghost predicate Valid() {
      forall t: Time :: parse(format(t)) == Some(t) && format(t) != "" && Plain(format(t))
    }
  }

  const HEADER: seq<string> := [
    "idx", "thread", "op", "client_id", "n_objects", "bytes", "endpoint", "file", "error",
    "start", "first_byte", "end", "duration_ns"]

  const COLUMNS: nat := 13

  // ----- writing -------------------------------------------------------------------------

  function FirstByteText(codec: TimeCodec, op: Operation): string {
    match op.firstByte
    case None => ""
    case Some(t) => codec.format(t)
  }

  /** A row's cells in the order of the columns. */
  function Columns(idx: string, thread: string, op: string, clientID: string, objects: string, bytes: string,
                   endpoint: string, file: string, err: string,
                   start: string, firstByte: string, end: string, duration: string): (r: seq<string>)
    ensures |r| == COLUMNS
  {
    [idx, thread, op, clientID, objects, bytes, endpoint, file, err, start, firstByte, end, duration]
  }

  function Cells(codec: TimeCodec, i: nat, op: Operation): (r: seq<string>)
    ensures |r| == COLUMNS
  {
    Columns(Decimal(i), Decimal(op.thread), op.opType, op.clientID, FormatInt(op.objPerOp), FormatInt(op.size),
            Escaped(op.endpoint), op.file, Escaped(op.err),
            codec.format(op.start), FirstByteText(codec, op), codec.format(op.end), FormatInt(op.Duration()))
  }

  function Row(codec: TimeCodec, i: nat, op: Operation): string {
    Join(Cells(codec, i, op)) + "\n"
  }

  function RowsFrom(codec: TimeCodec, ops: seq<Operation>, i: nat): string
    requires i <= |ops|
    decreases |ops| - i
  {
    if i == |ops| then "" else Row(codec, i, ops[i]) + RowsFrom(codec, ops, i + 1)
  }

  /** The text split at every line feed. */
  function SplitLines(s: string): (r: seq<string>)
    ensures |r| > 0
  {
    if s == "" then [""]
    else
      var rest := SplitLines(s[1..]);
      if s[0] == '\n' then [""] + rest else [[s[0]] + rest[0]] + rest[1..]
  }

  function CommentLines(lines: seq<string>): string {
    if |lines| == 0 then "" else "# " + lines[0] + "\n" + CommentLines(lines[1..])
  }

  function CommentText(comment: string): string {
    if comment == "" then "" else CommentLines(SplitLines(comment))
  }

  function FileText(codec: TimeCodec, ops: seq<Operation>, comment: string): string {
    Join(HEADER) + "\n" + RowsFrom(codec, ops, 0) + CommentText(comment)
  }

  method WriteCSV(codec: TimeCodec, ops: seq<Operation>, comment: string) returns (text: string)
    ensures text == FileText(codec, ops, comment)
  {
    var rows := WriteRows(codec, ops);
    var comments := WriteComment(comment);
    text := Join(HEADER) + "\n" + rows + comments;
  }

  method WriteRows(codec: TimeCodec, ops: seq<Operation>) returns (text: string)
    ensures text == RowsFrom(codec, ops, 0)
  {
    text := "";
    for i := 0 to |ops|
      invariant text + RowsFrom(codec, ops, i) == RowsFrom(codec, ops, 0)
    {
      var row := WriteRow(codec, i, ops[i]);
      Regroup(text, row, RowsFrom(codec, ops, i + 1));
      text := text + row;
    }
  }

  /** Each line of the comment, with a prefix that makes it one. */
  method WriteComment(comment: string) returns (text: string)
    ensures text == CommentText(comment)
  {
    text := "";
    if |comment| > 0 {
      var lines := SplitLines(comment);
      for i := 0 to |lines|
        invariant text + CommentLines(lines[i..]) == CommentLines(lines)
      {
        assert lines[i..][1..] == lines[i + 1..];
        Regroup(text, "# " + lines[i] + "\n", CommentLines(lines[i + 1..]));
        text := text + ("# " + lines[i] + "\n");
      }
      assert lines[|lines|..] == [];
    }
  }

  method WriteRow(codec: TimeCodec, i: nat, op: Operation) returns (row: string)
    ensures row == Row(codec, i, op)
  {
    var ttfb := "";
    if op.firstByte.Some? {
      ttfb := codec.format(op.firstByte.value);
    }
    var endpoint := CsvEscapeString(op.endpoint);
    var err := CsvEscapeString(op.err);
    row := Join(Columns(Decimal(i), Decimal(op.thread), op.opType, op.clientID, FormatInt(op.objPerOp), FormatInt(op.size),
                        endpoint, op.file, err, codec.format(op.start), ttfb, codec.format(op.end),
                        FormatInt(op.end - op.start))) + "\n";
  }

  // ----- loading -----------------------------------------------------------------------------

  datatype LoadError = NoHeader | BadSyntax | BadFieldCount | BadTime | BadNumber

  datatype Result<+T> = Ok(value: T) | Err(error: LoadError)

  /** Column name -> index of its last occurrence. */
  function FieldMap(header: seq<string>): (m: map<string, nat>)
    ensures forall name :: name in m ==> m[name] < |header| && header[m[name]] == name
  {
    if |header| == 0 then map[] else FieldMap(header[..|header| - 1])[header[|header| - 1] := |header| - 1]
  }

  /** A missing column is looked up as column 0. */
  function Column(m: map<string, nat>, name: string): nat {
    if name in m then m[name] else 0
  }

  function Value(m: map<string, nat>, values: seq<string>, name: string): string {
    if Column(m, name) < |values| then values[Column(m, name)] else ""
  }

  function OptionalValue(m: map<string, nat>, values: seq<string>, name: string): string {
    if name in m then Value(m, values, name) else ""
  }

  function ParseRow(codec: TimeCodec, m: map<string, nat>, values: seq<string>): Result<Operation> {
    var start := codec.parse(Value(m, values, "start"));
    var fb := Value(m, values, "first_byte");
    var first := if fb == "" then None else codec.parse(fb);
    var end := codec.parse(Value(m, values, "end"));
    var size := ParseInt(Value(m, values, "bytes"));
    var thread := ParseUint16(Value(m, values, "thread"));
    var objs := ParseInt(Value(m, values, "n_objects"));
    if start.None? || (fb != "" && first.None?) || end.None? then Err(BadTime)
    else if size.None? || thread.None? || objs.None? then Err(BadNumber)
    else
      Ok(Operation(Value(m, values, "op"), objs.value, start.value, first, end.value, Value(m, values, "error"),
                   size.value, Value(m, values, "file"), thread.value,
                   OptionalValue(m, values, "client_id"), OptionalValue(m, values, "endpoint")))
  }

  /** How the fields of a record are read. */
  type RowParser = seq<string> -> Result<Operation>

  function Parser(codec: TimeCodec, header: seq<string>): RowParser {
    values => ParseRow(codec, FieldMap(header), values)
  }

  /** The operations of the remaining text, the first `offset` records skipped and
      no more than `limit` loaded in all, `count` of them already, if limit > 0. */
  function LoadRows(parse: RowParser, width: nat, s: string, offset: nat, limit: int, count: nat): Result<seq<Operation>>
    decreases |s|
  {
    match NextRecord(s)
    case Eof => Ok([])
    case Bad => Err(BadSyntax)
    case Got(values, rest) =>
      if |values| != width then Err(BadFieldCount)
      else if offset > 0 then LoadRows(parse, width, rest, offset - 1, limit, count)
      else
        match parse(values)
        case Err(e) => Err(e)
        case Ok(op) =>
          if limit > 0 && count + 1 >= limit then Ok([op])
          else
            match LoadRows(parse, width, rest, 0, limit, count + 1)
            case Err(e) => Err(e)
            case Ok(ops) => Ok([op] + ops)
  }

  function Load(codec: TimeCodec, text: string, offset: nat, limit: int): Result<seq<Operation>> {
    match NextRecord(text)
    case Eof => Err(NoHeader)
    case Bad => Err(BadSyntax)
    case Got(header, rest) => LoadRows(Parser(codec, header), |header|, rest, offset, limit, 0)
  }

  method IndexColumns(header: seq<string>) returns (fieldIdx: map<string, nat>)
    ensures fieldIdx == FieldMap(header)
  {
    fieldIdx := map[];
    for i := 0 to |header|
      invariant fieldIdx == FieldMap(header[..i])
    {
      assert header[..i + 1][..i] == header[..i];
      fieldIdx := fieldIdx[header[i] := i];
    }
    assert header[..|header|] == header;
  }

  method OperationsFromCSV(codec: TimeCodec, text: string, offset: nat, limit: int) returns (r: Result<seq<Operation>>)
    ensures r == Load(codec, text, offset, limit)
  {
    var first := NextRecord(text);
    match first
    case Eof => r := Err(NoHeader);
    case Bad => r := Err(BadSyntax);
    case Got(header, rest) =>
      var fieldIdx := IndexColumns(header);
      r := ReadRows(codec, header, fieldIdx, rest, offset, limit);
  }

  method ReadRows(codec: TimeCodec, header: seq<string>, fieldIdx: map<string, nat>, text: string, offset0: nat, limit: int)
    returns (r: Result<seq<Operation>>)
    requires fieldIdx == FieldMap(header)
    ensures r == LoadRows(Parser(codec, header), |header|, text, offset0, limit, 0)
  {
    ghost var result := LoadRows(Parser(codec, header), |header|, text, offset0, limit, 0);
    PrependNone(result);
    var ops: seq<Operation> := [];
    var offset, rest := offset0, text;
    while true
      invariant |ops| > 0 ==> offset == 0
      invariant result == PrependAll(ops, LoadRows(Parser(codec, header), |header|, rest, offset, limit, |ops|))
      decreases |rest|
    {
      var next := NextRecord(rest);
      if next.Eof? {
        assert ops + [] == ops;
        return Ok(ops);
      }
      if next.Bad? {
        return Err(BadSyntax);
      }
      if |next.fields| != |header| {
        return Err(BadFieldCount);
      }
      rest := next.rest;
      if offset > 0 {
        offset := offset - 1;
        continue;
      }
      var op := ParseRow(codec, fieldIdx, next.fields);
      if op.Err? {
        return Err(op.error);
      }
      PrependMore(ops, op.value, LoadRows(Parser(codec, header), |header|, rest, 0, limit, |ops| + 1));
      ops := ops + [op.value];
      if limit > 0 && |ops| >= limit {
        return Ok(ops);
      }
    }
  }

  function PrependAll(ops: seq<Operation>, r: Result<seq<Operation>>): Result<seq<Operation>> {
    if r.Ok? then Ok(ops + r.value) else r
  }

  lemma PrependNone(r: Result<seq<Operation>>)
    ensures PrependAll([], r) == r
  {
    if r.Ok? {
      assert [] + r.value == r.value;
    }
  }

  lemma PrependMore(ops: seq<Operation>, op: Operation, r: Result<seq<Operation>>)
    ensures PrependAll(ops, if r.Ok? then Ok([op] + r.value) else r) == PrependAll(ops + [op], r)
  {
    if r.Ok? {
      assert ops + ([op] + r.value) == (ops + [op]) + r.value;
    }
  }

  // ----- what loading means -----------------------------------------------------------------

  /** The fields of the text's records, up to its end or to a syntax error. */
  function Records(s: string): seq<seq<string>>
    decreases |s|
  {
    match NextRecord(s)
    case Got(fields, rest) => [fields] + Records(rest)
    case _ => []
  }

  /** There is no syntax error. */
  predicate WellFormed(s: string)
    decreases |s|
  {
    match NextRecord(s)
    case Eof => true
    case Bad => false
    case Got(_, rest) => WellFormed(rest)
  }

  /** The rest of the text loads as ops. */
  ghost predicate LoadsRest(parse: RowParser, width: nat, s: string, offset: nat, limit: int, count: nat, ops: seq<Operation>) {
    LoadRows(parse, width, s, offset, limit, count) == Ok(ops)
  }

  /** A skipped record adds nothing. */
  lemma LoadPast(parse: RowParser, width: nat, s: string, offset: nat, limit: int, count: nat, ops: seq<Operation>)
    requires LoadsRest(parse, width, s, offset, limit, count, ops) && NextRecord(s).Got? && offset > 0
    ensures |NextRecord(s).fields| == width
    ensures LoadsRest(parse, width, NextRecord(s).rest, offset - 1, limit, count, ops)
  {
  }

  /** A record that is not skipped is the next operation. */
  lemma NextIsParsed(parse: RowParser, width: nat, s: string, limit: int, count: nat, ops: seq<Operation>)
    requires LoadsRest(parse, width, s, 0, limit, count, ops) && |ops| > 0
    ensures NextRecord(s).Got? && parse(NextRecord(s).fields) == Ok(ops[0])
  {
  }

  /** It is the last one at the limit. */
  lemma LoadNext(parse: RowParser, width: nat, s: string, limit: int, count: nat, ops: seq<Operation>)
    requires LoadsRest(parse, width, s, 0, limit, count, ops) && NextRecord(s).Got?
    ensures |ops| > 0 && |NextRecord(s).fields| == width
    ensures if limit > 0 && count + 1 >= limit then |ops| == 1
            else LoadsRest(parse, width, NextRecord(s).rest, 0, limit, count + 1, ops[1..])
  {
  }

  lemma LoadNone(parse: RowParser, width: nat, s: string, offset: nat, limit: int, count: nat, ops: seq<Operation>)
    requires LoadsRest(parse, width, s, offset, limit, count, ops) && !NextRecord(s).Got?
    ensures NextRecord(s).Eof? && ops == []
  {
  }

  /** The operations are those of the records after the skipped ones, in their order. */
  ghost predicate AreRecords(parse: RowParser, width: nat, records: seq<seq<string>>, offset: nat, ops: seq<Operation>) {
    && (ops != [] ==> offset + |ops| <= |records|)
    && (forall j :: 0 <= j < |records| && j < offset + |ops| ==> |records[j]| == width)
    && (forall k :: 0 <= k < |ops| ==> parse(records[offset + k]) == Ok(ops[k]))
  }

  /** One more skipped record. */
  lemma OneMoreSkipped(parse: RowParser, width: nat, fields: seq<string>, records: seq<seq<string>>, offset: nat,
                       ops: seq<Operation>)
    requires |fields| == width && AreRecords(parse, width, records, offset, ops)
    ensures AreRecords(parse, width, [fields] + records, offset + 1, ops)
  {
    var all := [fields] + records;
    forall k | 0 <= k < |ops| ensures parse(all[offset + 1 + k]) == Ok(ops[k]) {
      assert all[offset + 1 + k] == records[offset + k];
    }
    forall j | 0 <= j < |all| && j < offset + 1 + |ops| ensures |all[j]| == width {
      assert j > 0 ==> all[j] == records[j - 1];
    }
  }

  /** One more record that is an operation. */
  lemma OneMoreTaken(parse: RowParser, width: nat, fields: seq<string>, records: seq<seq<string>>, ops: seq<Operation>)
    requires |ops| > 0 && parse(fields) == Ok(ops[0]) && |fields| == width
    requires |ops| > 1 ==> AreRecords(parse, width, records, 0, ops[1..])
    ensures AreRecords(parse, width, [fields] + records, 0, ops)
  {
    var all := [fields] + records;
    forall k | 0 <= k < |ops| ensures parse(all[0 + k]) == Ok(ops[k]) {
      assert k > 0 ==> ops[1..][k - 1] == ops[k] && all[k] == records[0 + (k - 1)];
    }
    forall j | 0 <= j < |all| && j < |ops| ensures |all[j]| == width {
      assert j > 0 ==> all[j] == records[j - 1];
    }
  }

  /** Rows that load are the records after the skipped ones, in their order. */
  lemma {:induction false} LoadedRecords(parse: RowParser, width: nat, s: string, offset: nat, limit: int, count: nat,
                                         ops: seq<Operation>)
    requires LoadsRest(parse, width, s, offset, limit, count, ops)
    ensures AreRecords(parse, width, Records(s), offset, ops)
    decreases |s|
  {
    if !NextRecord(s).Got? {
      LoadNone(parse, width, s, offset, limit, count, ops);
    } else {
      var fields, rest := NextRecord(s).fields, NextRecord(s).rest;
      if offset > 0 {
        LoadPast(parse, width, s, offset, limit, count, ops);
        LoadedRecords(parse, width, rest, offset - 1, limit, count, ops);
        OneMoreSkipped(parse, width, fields, Records(rest), offset - 1, ops);
      } else {
        LoadNext(parse, width, s, limit, count, ops);
        NextIsParsed(parse, width, s, limit, count, ops);
        if |ops| > 1 {
          LoadedRecords(parse, width, rest, 0, limit, count + 1, ops[1..]);
        }
        OneMoreTaken(parse, width, fields, Records(rest), ops);
      }
    }
  }

  /** With n operations the limit is reached, or the end of the text is. */
  ghost predicate GoesToEnd(s: string, offset: nat, limit: int, count: nat, n: nat) {
    if limit > 0 && count + n >= limit then count + n == limit
    else WellFormed(s) && (|Records(s)| == offset + n || (n == 0 && |Records(s)| < offset))
  }

  lemma EndSkipped(s: string, offset: nat, limit: int, count: nat, n: nat)
    requires NextRecord(s).Got? && offset > 0 && GoesToEnd(NextRecord(s).rest, offset - 1, limit, count, n)
    ensures GoesToEnd(s, offset, limit, count, n)
  {
  }

  lemma EndTaken(s: string, limit: int, count: nat, n: nat)
    requires NextRecord(s).Got? && GoesToEnd(NextRecord(s).rest, 0, limit, count + 1, n)
    ensures GoesToEnd(s, 0, limit, count, n + 1)
  {
  }

  lemma LimitReached(s: string, limit: int, count: nat)
    requires limit > 0 && count + 1 == limit
    ensures GoesToEnd(s, 0, limit, count, 1)
  {
  }

  lemma EndReached(s: string, offset: nat, limit: int, count: nat)
    requires NextRecord(s).Eof? && (limit > 0 ==> count < limit)
    ensures GoesToEnd(s, offset, limit, count, 0)
  {
  }

  /** They go on to the limit, or to the end of the text. */
  lemma {:induction false} LoadedToEnd(parse: RowParser, width: nat, s: string, offset: nat, limit: int, count: nat,
                                       ops: seq<Operation>)
    requires LoadsRest(parse, width, s, offset, limit, count, ops) && (limit > 0 ==> count < limit)
    ensures GoesToEnd(s, offset, limit, count, |ops|)
    decreases |s|
  {
    if !NextRecord(s).Got? {
      LoadNone(parse, width, s, offset, limit, count, ops);
      EndReached(s, offset, limit, count);
    } else if offset > 0 {
      LoadPast(parse, width, s, offset, limit, count, ops);
      LoadedToEnd(parse, width, NextRecord(s).rest, offset - 1, limit, count, ops);
      EndSkipped(s, offset, limit, count, |ops|);
    } else {
      LoadNext(parse, width, s, limit, count, ops);
      if limit <= 0 || count + 1 < limit {
        LoadedToEnd(parse, width, NextRecord(s).rest, 0, limit, count + 1, ops[1..]);
        EndTaken(s, limit, count, |ops[1..]|);
      } else {
        LimitReached(s, limit, count);
      }
    }
  }

  /** Rows do not load. */
  ghost predicate LoadFails(parse: RowParser, width: nat, s: string, offset: nat, limit: int, count: nat) {
    LoadRows(parse, width, s, offset, limit, count).Err?
  }

  /** What makes loading fail at the n-th record, which is before the limit: a syntax
      error, a wrong number of fields or, unless skipped, a field that does not parse. */
  ghost predicate FailsAt(parse: RowParser, width: nat, records: seq<seq<string>>, wellFormed: bool,
                          offset: nat, limit: int, count: nat, n: nat) {
    && n <= |records|
    && (limit > 0 && n >= offset ==> count + (n - offset) < limit)
    && if n == |records| then !wellFormed else |records[n]| != width || (n >= offset && parse(records[n]).Err?)
  }

  /** Either the next record fails or it is fine and loading fails after it. */
  lemma FailsHereOrLater(parse: RowParser, width: nat, s: string, offset: nat, limit: int, count: nat)
    requires LoadFails(parse, width, s, offset, limit, count) && (limit > 0 ==> count < limit)
    ensures FailsAt(parse, width, Records(s), WellFormed(s), offset, limit, count, 0)
         || (NextRecord(s).Got? &&
             (if offset > 0 then LoadFails(parse, width, NextRecord(s).rest, offset - 1, limit, count)
              else LoadFails(parse, width, NextRecord(s).rest, 0, limit, count + 1) && (limit > 0 ==> count + 1 < limit)))
  {
  }

  lemma FailsOneOn(parse: RowParser, width: nat, fields: seq<string>, records: seq<seq<string>>, wellFormed: bool,
                   offset: nat, limit: int, count: nat, n: nat)
    requires FailsAt(parse, width, records, wellFormed, if offset > 0 then offset - 1 else 0, limit,
                     if offset > 0 then count else count + 1, n)
    ensures FailsAt(parse, width, [fields] + records, wellFormed, offset, limit, count, n + 1)
  {
  }

  /** Rows that do not load have a place where they fail. */
  lemma {:induction false} FailureMeans(parse: RowParser, width: nat, s: string, offset: nat, limit: int, count: nat)
    returns (n: nat)
    requires LoadFails(parse, width, s, offset, limit, count) && (limit > 0 ==> count < limit)
    ensures FailsAt(parse, width, Records(s), WellFormed(s), offset, limit, count, n)
    decreases |s|
  {
    n := 0;
    FailsHereOrLater(parse, width, s, offset, limit, count);
    if !FailsAt(parse, width, Records(s), WellFormed(s), offset, limit, count, 0) {
      var rest := NextRecord(s).rest;
      if offset > 0 {
        n := FailureMeans(parse, width, rest, offset - 1, limit, count);
      } else {
        n := FailureMeans(parse, width, rest, 0, limit, count + 1);
      }
      FailsOneOn(parse, width, NextRecord(s).fields, Records(rest), WellFormed(rest), offset, limit, count, n);
      n := n + 1;
    }
  }

  /** What a file loads as: with the first record as the header, the operations read
      from the records after it and after `offset` more, all of them or the first `limit`. */
  lemma LoadMeans(codec: TimeCodec, text: string, offset: nat, limit: int, ops: seq<Operation>)
    requires Load(codec, text, offset, limit) == Ok(ops)
    ensures |Records(text)| > 0
    ensures ops != [] ==> 1 + offset + |ops| <= |Records(text)|
    ensures forall k :: 0 <= k < |ops| ==>
      ParseRow(codec, FieldMap(Records(text)[0]), Records(text)[1 + offset + k]) == Ok(ops[k])
    ensures limit > 0 ==> |ops| <= limit
    ensures limit <= 0 || |ops| < limit ==>
      WellFormed(text) && |ops| == if |Records(text)| >= 1 + offset then |Records(text)| - 1 - offset else 0
    ensures forall j :: 0 <= j < |Records(text)| && j < 1 + offset + |ops| ==> |Records(text)[j]| == |Records(text)[0]|
  {
    var header, rest := NextRecord(text).fields, NextRecord(text).rest;
    LoadedRecords(Parser(codec, header), |header|, rest, offset, limit, 0, ops);
    LoadedToEnd(Parser(codec, header), |header|, rest, offset, limit, 0, ops);
    forall k | 0 <= k < |ops|
      ensures ParseRow(codec, FieldMap(header), Records(text)[1 + offset + k]) == Ok(ops[k])
    {
      assert Records(text)[1 + offset + k] == Records(rest)[offset + k];
      assert Parser(codec, header)(Records(rest)[offset + k]) == Ok(ops[k]);
    }
    forall j | 0 <= j < |Records(text)| && j < 1 + offset + |ops| ensures |Records(text)[j]| == |header| {
      assert j > 0 ==> Records(text)[j] == Records(rest)[j - 1];
    }
  }

  /** A file that does not load has no header, or a record before the limit that is
      malformed, of the wrong length or, unless skipped, does not parse. */
  lemma LoadErrorMeans(codec: TimeCodec, text: string, offset: nat, limit: int) returns (n: nat)
    requires Load(codec, text, offset, limit).Err?
    ensures Records(text) == [] ||
      (n < |Records(text)| && (limit > 0 && n >= offset ==> n - offset < limit)
       && if n + 1 == |Records(text)| then !WellFormed(text)
          else |Records(text)[n + 1]| != |Records(text)[0]|
               || (n >= offset && ParseRow(codec, FieldMap(Records(text)[0]), Records(text)[n + 1]).Err?))
  {
    n := 0;
    if NextRecord(text).Got? {
      var header, rest := NextRecord(text).fields, NextRecord(text).rest;
      n := FailureMeans(Parser(codec, header), |header|, rest, offset, limit, 0);
      assert Records(text) == [header] + Records(rest);
      if n < |Records(rest)| {
        assert Records(text)[n + 1] == Records(rest)[n];
        assert Parser(codec, header)(Records(rest)[n]) == ParseRow(codec, FieldMap(header), Records(rest)[n]);
      }
    }
  }
}
