/** Loading what was written returns the operations. */
module CsvRoundTrip {
  import opened Basics
  import opened Operations
  import opened CsvText
  import opened CsvFile

  /** Fields written without quoting must not need any, and numbers are 64-bit. */
  ghost predicate Writable(op: Operation) {
    Plain(op.opType) && Plain(op.clientID) && Plain(op.file) && IsInt64(op.size) && IsInt64(op.objPerOp)
    && IsInt64(op.Duration())
  }

  ghost predicate AllWritable(ops: seq<Operation>) {
    forall op :: op in ops ==> Writable(op)
  }

  /** What loading makes of an operation: CR LF pairs in quoted fields turn into line feeds. */
  function Loaded(op: Operation): Operation {
    op.(endpoint := CrLfToLf(op.endpoint), err := CrLfToLf(op.err))
  }

  /** The values of a row's cells. */
  function CellValues(codec: TimeCodec, i: nat, op: Operation): (r: seq<string>)
    ensures |r| == COLUMNS
  {
    Columns(Decimal(i), Decimal(op.thread), op.opType, op.clientID, FormatInt(op.objPerOp), FormatInt(op.size),
            CrLfToLf(op.endpoint), op.file, CrLfToLf(op.err),
            codec.format(op.start), FirstByteText(codec, op), codec.format(op.end), FormatInt(op.Duration()))
  }

  // ----- the header ---------------------------------------------------------------------

  lemma HeaderReads(rest: string)
    ensures NextRecord(Join(HEADER) + ("\n" + rest)) == Got(HEADER, rest)
  {
    HeaderCellsRead();
    LineReads(HEADER, HEADER, rest);
    FirstLineStarts(HEADER, "\n" + rest);
  }

  lemma HeaderCellsRead()
    ensures forall i :: 0 <= i < |HEADER| ==> Reads(HEADER[i], HEADER[i])
  {
    forall i | 0 <= i < |HEADER| ensures Reads(HEADER[i], HEADER[i]) {
      HeaderCellPlain(i);
      PlainReads(HEADER[i]);
    }
  }

  lemma HeaderCellPlain(i: nat)
    requires i < |HEADER|
    ensures Plain(HEADER[i])
  {
  }

  lemma FirstLineStarts(cells: seq<string>, after: string)
    requires |cells| > 0 && cells[0] != ""
    ensures (Join(cells) + after) != "" && (Join(cells) + after)[0] == cells[0][0]
  {
  }

  /** Each column of the header is found at its place. */
  lemma HeaderColumns()
    ensures var m := FieldMap(HEADER);
      && "thread" in m && m["thread"] == 1 && "op" in m && m["op"] == 2
      && "client_id" in m && m["client_id"] == 3 && "n_objects" in m && m["n_objects"] == 4
      && "bytes" in m && m["bytes"] == 5 && "endpoint" in m && m["endpoint"] == 6
      && "file" in m && m["file"] == 7 && "error" in m && m["error"] == 8
      && "start" in m && m["start"] == 9 && "first_byte" in m && m["first_byte"] == 10
      && "end" in m && m["end"] == 11
  {
    HeaderDistinct();
    forall k | 0 <= k < |HEADER| ensures HEADER[k] in FieldMap(HEADER) && FieldMap(HEADER)[HEADER[k]] == k {
      ColumnFound(HEADER, k);
    }
    assert HEADER[1] == "thread" && HEADER[2] == "op" && HEADER[3] == "client_id" && HEADER[4] == "n_objects";
    assert HEADER[5] == "bytes" && HEADER[6] == "endpoint" && HEADER[7] == "file" && HEADER[8] == "error";
    assert HEADER[9] == "start" && HEADER[10] == "first_byte" && HEADER[11] == "end";
  }

  lemma HeaderDistinct()
    ensures forall i, j :: 0 <= i < j < |HEADER| ==> HEADER[i] != HEADER[j]
  {
    forall i, j | 0 <= i < j < |HEADER| ensures HEADER[i] != HEADER[j] {
      if |HEADER[i]| == |HEADER[j]| {
        assert HEADER[i][0] != HEADER[j][0] || HEADER[i][1] != HEADER[j][1] || HEADER[i][2] != HEADER[j][2];
      }
    }
  }

  lemma {:induction false} ColumnFound(header: seq<string>, k: nat)
    requires k < |header| && forall i, j :: 0 <= i < j < |header| ==> header[i] != header[j]
    ensures header[k] in FieldMap(header) && FieldMap(header)[header[k]] == k
  {
    var n := |header| - 1;
    if k < n {
      ColumnFound(header[..n], k);
    }
  }

  // ----- rows -----------------------------------------------------------------------------

  lemma PlainTimes(codec: TimeCodec, op: Operation)
    requires codec.Valid()
    ensures Plain(codec.format(op.start)) && Plain(FirstByteText(codec, op)) && Plain(codec.format(op.end))
  {
  }

  /** Rows that differ in two cells only are related cell by cell. */
  lemma ColumnsRelated(r: (string, string) -> bool,
                       idx: string, thread: string, op: string, clientID: string, objects: string, bytes: string,
                       endpoint: string, endpoint': string, file: string, err: string, err': string,
                       start: string, firstByte: string, end: string, duration: string)
    requires r(idx, idx) && r(thread, thread) && r(op, op) && r(clientID, clientID)
    requires r(objects, objects) && r(bytes, bytes) && r(file, file)
    requires r(endpoint, endpoint') && r(err, err')
    requires r(start, start) && r(firstByte, firstByte) && r(end, end) && r(duration, duration)
    ensures var c := Columns(idx, thread, op, clientID, objects, bytes, endpoint, file, err, start, firstByte, end, duration);
      var v := Columns(idx, thread, op, clientID, objects, bytes, endpoint', file, err', start, firstByte, end, duration);
      forall k :: 0 <= k < COLUMNS ==> r(c[k], v[k])
  {
  }

  lemma RowCellsRead(codec: TimeCodec, i: nat, op: Operation)
    requires codec.Valid() && Writable(op)
    ensures forall k :: 0 <= k < COLUMNS ==> Reads(Cells(codec, i, op)[k], CellValues(codec, i, op)[k])
  {
    DecimalTextReads(i);
    DecimalTextReads(op.thread);
    PlainReads(op.opType);
    PlainReads(op.clientID);
    IntTextReads(op.objPerOp);
    IntTextReads(op.size);
    EscapedReads(op.endpoint);
    PlainReads(op.file);
    EscapedReads(op.err);
    PlainTimes(codec, op);
    PlainReads(codec.format(op.start));
    PlainReads(FirstByteText(codec, op));
    PlainReads(codec.format(op.end));
    IntTextReads(op.Duration());
    ColumnsRelated((cell, value) => Reads(cell, value),
                   Decimal(i), Decimal(op.thread), op.opType, op.clientID, FormatInt(op.objPerOp), FormatInt(op.size),
                   Escaped(op.endpoint), CrLfToLf(op.endpoint), op.file, Escaped(op.err), CrLfToLf(op.err),
                   codec.format(op.start), FirstByteText(codec, op), codec.format(op.end), FormatInt(op.Duration()));
  }

  /** A line whose first cell is neither empty nor a comment is read as its values. */
  lemma LineIsNext(cells: seq<string>, values: seq<string>, rest: string)
    requires |cells| == |values| > 0 && cells[0] != "" && '0' <= cells[0][0] <= '9'
    requires forall k :: 0 <= k < |cells| ==> Reads(cells[k], values[k])
    ensures NextRecord(Join(cells) + "\n" + rest) == Got(values, rest)
  {
    LineReads(cells, values, rest);
    assert Join(cells) + "\n" + rest == Join(cells) + ("\n" + rest);
    FirstLineStarts(cells, "\n" + rest);
  }

  lemma RowReads(codec: TimeCodec, i: nat, op: Operation, rest: string)
    requires codec.Valid() && Writable(op)
    ensures NextRecord(Row(codec, i, op) + rest) == Got(CellValues(codec, i, op), rest)
  {
    RowCellsRead(codec, i, op);
    DecimalReads(i);
    LineIsNext(Cells(codec, i, op), CellValues(codec, i, op), rest);
  }

  /** A written row read back has each of its fields under its own heading. */
  lemma RowFields(codec: TimeCodec, i: nat, op: Operation, rest: string)
    requires codec.Valid() && Writable(op)
    ensures HEADER == ["idx", "thread", "op", "client_id", "n_objects", "bytes", "endpoint", "file", "error",
                       "start", "first_byte", "end", "duration_ns"]
    ensures NextRecord(Row(codec, i, op) + rest).Got? && NextRecord(Row(codec, i, op) + rest).rest == rest
    ensures NextRecord(Row(codec, i, op) + rest).fields ==
      [Decimal(i), Decimal(op.thread), op.opType, op.clientID, FormatInt(op.objPerOp), FormatInt(op.size),
       CrLfToLf(op.endpoint), op.file, CrLfToLf(op.err), codec.format(op.start),
       (if op.firstByte.Some? then codec.format(op.firstByte.value) else ""), codec.format(op.end),
       FormatInt(op.end - op.start)]
  {
    RowReads(codec, i, op, rest);
  }

  /** Each value is looked up in its own column. */
  lemma ValuesInColumns(codec: TimeCodec, i: nat, op: Operation)
    ensures var (m, v) := (FieldMap(HEADER), CellValues(codec, i, op));
      && Value(m, v, "thread") == Decimal(op.thread) && Value(m, v, "op") == op.opType
      && Value(m, v, "n_objects") == FormatInt(op.objPerOp) && Value(m, v, "bytes") == FormatInt(op.size)
      && Value(m, v, "file") == op.file && Value(m, v, "error") == CrLfToLf(op.err)
      && Value(m, v, "start") == codec.format(op.start) && Value(m, v, "first_byte") == FirstByteText(codec, op)
      && Value(m, v, "end") == codec.format(op.end)
      && OptionalValue(m, v, "client_id") == op.clientID && OptionalValue(m, v, "endpoint") == CrLfToLf(op.endpoint)
  {
    HeaderColumns();
  }

  lemma RowLoads(codec: TimeCodec, i: nat, op: Operation)
    requires codec.Valid() && Writable(op)
    ensures ParseRow(codec, FieldMap(HEADER), CellValues(codec, i, op)) == Result.Ok(Loaded(op))
  {
    ValuesInColumns(codec, i, op);
    ParsedValues(codec, FieldMap(HEADER), CellValues(codec, i, op), op);
  }

  /** Values looked up as written parse to the operation. */
  lemma ParsedValues(codec: TimeCodec, m: map<string, nat>, v: seq<string>, op: Operation)
    requires codec.Valid() && Writable(op)
    requires Value(m, v, "thread") == Decimal(op.thread) && Value(m, v, "op") == op.opType
    requires Value(m, v, "n_objects") == FormatInt(op.objPerOp) && Value(m, v, "bytes") == FormatInt(op.size)
    requires Value(m, v, "file") == op.file && Value(m, v, "error") == CrLfToLf(op.err)
    requires Value(m, v, "start") == codec.format(op.start) && Value(m, v, "first_byte") == FirstByteText(codec, op)
    requires Value(m, v, "end") == codec.format(op.end)
    requires OptionalValue(m, v, "client_id") == op.clientID
    requires OptionalValue(m, v, "endpoint") == CrLfToLf(op.endpoint)
    ensures ParseRow(codec, m, v) == Result.Ok(Loaded(op))
  {
    Uint16Reads(op.thread);
    IntReads(op.objPerOp);
    IntReads(op.size);
    TimesParse(codec, op);
    ParsedParts(codec, m, v, op);
  }

  lemma TimesParse(codec: TimeCodec, op: Operation)
    requires codec.Valid()
    ensures codec.parse(codec.format(op.start)) == Some(op.start) && codec.parse(codec.format(op.end)) == Some(op.end)
    ensures FirstByteText(codec, op) == "" <==> op.firstByte.None?
    ensures op.firstByte.Some? ==> codec.parse(FirstByteText(codec, op)) == op.firstByte
  {
  }

  lemma ParsedParts(codec: TimeCodec, m: map<string, nat>, v: seq<string>, op: Operation)
    requires codec.parse(Value(m, v, "start")) == Some(op.start) && codec.parse(Value(m, v, "end")) == Some(op.end)
    requires Value(m, v, "first_byte") == "" <==> op.firstByte.None?
    requires op.firstByte.Some? ==> codec.parse(Value(m, v, "first_byte")) == op.firstByte
    requires ParseUint16(Value(m, v, "thread")) == Some(op.thread)
    requires ParseInt(Value(m, v, "n_objects")) == Some(op.objPerOp) && ParseInt(Value(m, v, "bytes")) == Some(op.size)
    requires Value(m, v, "op") == op.opType && Value(m, v, "file") == op.file && Value(m, v, "error") == CrLfToLf(op.err)
    requires OptionalValue(m, v, "client_id") == op.clientID
    requires OptionalValue(m, v, "endpoint") == CrLfToLf(op.endpoint)
    ensures ParseRow(codec, m, v) == Result.Ok(Loaded(op))
  {
  }

  // ----- comments --------------------------------------------------------------------------

  lemma {:induction false} SplitHasNoLineFeeds(s: string)
    ensures forall k :: 0 <= k < |SplitLines(s)| ==> '\n' !in SplitLines(s)[k]
  {
    if s != "" {
      SplitHasNoLineFeeds(s[1..]);
    }
  }

  lemma {:induction false} SkipsLine(line: string, rest: string)
    requires '\n' !in line
    ensures SkipLine(line + ("\n" + rest)) == rest
  {
    var s := line + ("\n" + rest);
    if line == "" {
      assert s == "\n" + rest;
    } else {
      assert s[0] == line[0] && line[0] in line;
      assert s[1..] == line[1..] + ("\n" + rest);
      SkipsLine(line[1..], rest);
    }
  }

  /** Comment lines hold no records, whatever their text. */
  lemma {:induction false} CommentsAreSkipped(lines: seq<string>)
    requires forall k :: 0 <= k < |lines| ==> '\n' !in lines[k]
    ensures NextRecord(CommentLines(lines)) == Eof
  {
    if |lines| > 0 {
      var rest := CommentLines(lines[1..]);
      var line := "# " + lines[0];
      assert CommentLines(lines) == line + ("\n" + rest);
      assert '\n' !in line;
      SkipsLine(line, rest);
      CommentsAreSkipped(lines[1..]);
    }
  }

  lemma CommentSkipped(comment: string)
    ensures NextRecord(CommentText(comment)) == Eof
  {
    SplitHasNoLineFeeds(comment);
    CommentsAreSkipped(SplitLines(comment));
  }

  // ----- loading any rows --------------------------------------------------------------------

  /** The next record of the text has these values, which load as op, and is
      followed by the rest. */
  ghost predicate Yields(codec: TimeCodec, s: string, values: seq<string>, op: Operation, rest: string) {
    && NextRecord(s) == Got(values, rest) && |values| == COLUMNS
    && ParseRow(codec, FieldMap(HEADER), values) == Result.Ok(op)
  }

  /** The part of the operations that an offset and a limit select, `count` of the
      limit being used up. */
  function Selected(ops: seq<Operation>, offset: nat, limit: int, count: nat): seq<Operation> {
    var rest := if offset <= |ops| then ops[offset..] else [];
    if limit > 0 && count < limit && limit - count < |rest| then rest[..limit - count] else rest
  }

  lemma FileTextParts(header: string, rows: string, comment: string)
    ensures header + "\n" + rows + comment == header + ("\n" + (rows + comment))
  {
  }

  lemma SelectSkip(ops: seq<Operation>, offset: nat, limit: int, count: nat)
    requires |ops| > 0 && offset > 0
    ensures Selected(ops, offset, limit, count) == Selected(ops[1..], offset - 1, limit, count)
  {
    if offset <= |ops| {
      assert ops[offset..] == ops[1..][offset - 1..];
    }
  }

  lemma SelectTake(ops: seq<Operation>, limit: int, count: nat)
    requires |ops| > 0 && (limit > 0 ==> count < limit)
    ensures limit > 0 && count + 1 >= limit ==> Selected(ops, 0, limit, count) == [ops[0]]
    ensures !(limit > 0 && count + 1 >= limit) ==>
      Selected(ops, 0, limit, count) == [ops[0]] + Selected(ops[1..], 0, limit, count + 1)
  {
    assert ops == [ops[0]] + ops[1..];
  }

  /** The text loads as the given operations. */
  ghost predicate LoadsAs(codec: TimeCodec, s: string, offset: nat, limit: int, count: nat, ops: seq<Operation>) {
    LoadRows(Parser(codec, HEADER), COLUMNS, s, offset, limit, count) == Result.Ok(ops)
  }

  lemma LoadNoRow(codec: TimeCodec, s: string, offset: nat, limit: int, count: nat)
    requires NextRecord(s) == Eof
    ensures LoadsAs(codec, s, offset, limit, count, [])
  {
  }

  lemma SkipRow(codec: TimeCodec, s: string, values: seq<string>, op: Operation, rest: string,
                offset: nat, limit: int, count: nat, ops: seq<Operation>)
    requires Yields(codec, s, values, op, rest)
    requires LoadsAs(codec, rest, offset, limit, count, ops)
    ensures LoadsAs(codec, s, offset + 1, limit, count, ops)
  {
  }

  lemma LastRow(codec: TimeCodec, s: string, values: seq<string>, op: Operation, rest: string, limit: int, count: nat)
    requires Yields(codec, s, values, op, rest) && limit > 0 && count + 1 >= limit
    ensures LoadsAs(codec, s, 0, limit, count, [op])
  {
  }

  lemma TakeRow(codec: TimeCodec, s: string, values: seq<string>, op: Operation, rest: string,
                limit: int, count: nat, ops: seq<Operation>)
    requires Yields(codec, s, values, op, rest) && !(limit > 0 && count + 1 >= limit)
    requires LoadsAs(codec, rest, 0, limit, count + 1, ops)
    ensures LoadsAs(codec, s, 0, limit, count, [op] + ops)
  {
  }

  /** One row and what follows it: the next call of the loading loop sees one row
      less, with one less to skip or one more taken. */
  lemma LoadStep(codec: TimeCodec, s: string, values: seq<string>, rest: string, ops: seq<Operation>,
                 offset: nat, limit: int, count: nat)
    requires |ops| > 0 && Yields(codec, s, values, ops[0], rest)
    requires limit > 0 ==> count < limit
    requires LoadsSelected(codec, rest, ops[1..], NextOffset(offset), limit, NextCount(offset, count))
      || (offset == 0 && limit > 0 && count + 1 >= limit)
    ensures LoadsSelected(codec, s, ops, offset, limit, count)
  {
    if offset > 0 {
      var fewer: nat := offset - 1;
      SkipRow(codec, s, values, ops[0], rest, fewer, limit, count, Selected(ops[1..], fewer, limit, count));
      SelectSkip(ops, offset, limit, count);
    } else {
      SelectTake(ops, limit, count);
      if limit > 0 && count + 1 >= limit {
        LastRow(codec, s, values, ops[0], rest, limit, count);
      } else {
        TakeRow(codec, s, values, ops[0], rest, limit, count, Selected(ops[1..], 0, limit, count + 1));
      }
    }
  }

  function NextOffset(offset: nat): nat {
    if offset > 0 then offset - 1 else 0
  }

  function NextCount(offset: nat, count: nat): nat {
    if offset > 0 then count else count + 1
  }

  ghost predicate LoadsSelected(codec: TimeCodec, s: string, ops: seq<Operation>, offset: nat, limit: int, count: nat) {
    LoadsAs(codec, s, offset, limit, count, Selected(ops, offset, limit, count))
  }

  // ----- the round trip ---------------------------------------------------------------------

  function AllLoaded(ops: seq<Operation>): seq<Operation> {
    seq(|ops|, i requires 0 <= i < |ops| => Loaded(ops[i]))
  }

  lemma RowYields(codec: TimeCodec, ops: seq<Operation>, i: nat, tail: string)
    requires codec.Valid() && AllWritable(ops) && i < |ops|
    ensures Yields(codec, RowsFrom(codec, ops, i) + tail, CellValues(codec, i, ops[i]), Loaded(ops[i]),
                   RowsFrom(codec, ops, i + 1) + tail)
  {
    assert ops[i] in ops;
    var rest := RowsFrom(codec, ops, i + 1);
    Regroup(Row(codec, i, ops[i]), rest, tail);
    RowReads(codec, i, ops[i], rest + tail);
    RowLoads(codec, i, ops[i]);
  }

  /** Loading the rows from the i-th on returns what is selected of those operations. */
  lemma {:induction false} LoadOfRows(codec: TimeCodec, ops: seq<Operation>, tail: string, i: nat,
                                      offset: nat, limit: int, count: nat)
    requires codec.Valid() && AllWritable(ops) && i <= |ops| && NextRecord(tail) == Eof
    requires limit > 0 ==> count < limit
    ensures LoadsSelected(codec, RowsFrom(codec, ops, i) + tail, AllLoaded(ops)[i..], offset, limit, count)
    decreases |ops| - i
  {
    var loaded := AllLoaded(ops)[i..];
    if i == |ops| {
      assert RowsFrom(codec, ops, i) + tail == tail;
      LoadNoRow(codec, tail, offset, limit, count);
    } else {
      assert loaded[1..] == AllLoaded(ops)[i + 1..];
      if offset > 0 || limit <= 0 || count + 1 < limit {
        LoadOfRows(codec, ops, tail, i + 1, NextOffset(offset), limit, NextCount(offset, count));
      }
      RowYields(codec, ops, i, tail);
      LoadStep(codec, RowsFrom(codec, ops, i) + tail, CellValues(codec, i, ops[i]), RowsFrom(codec, ops, i + 1) + tail,
               loaded, offset, limit, count);
    }
  }

  /** Loading a written file returns the selected operations, for any comment, any
      offset and any limit, but for CR LF pairs in the two quoted fields. */
  lemma LoadOfWritten(codec: TimeCodec, ops: seq<Operation>, comment: string, offset: nat, limit: int)
    requires codec.Valid() && AllWritable(ops)
    ensures Load(codec, FileText(codec, ops, comment), offset, limit)
      == Result.Ok(Selected(AllLoaded(ops), offset, limit, 0))
  {
    var tail := CommentText(comment);
    FileTextParts(Join(HEADER), RowsFrom(codec, ops, 0), tail);
    HeaderReads(RowsFrom(codec, ops, 0) + tail);
    CommentSkipped(comment);
    LoadOfRows(codec, ops, tail, 0, offset, limit, 0);
    assert AllLoaded(ops)[0..] == AllLoaded(ops);
  }

  /** Writing and loading are inverse exactly when no endpoint and no error text
      holds a CR LF pair. */
  lemma RoundTripIff(codec: TimeCodec, ops: seq<Operation>, comment: string)
    requires codec.Valid() && AllWritable(ops)
    ensures Load(codec, FileText(codec, ops, comment), 0, 0) == Result.Ok(ops) <==>
      forall op :: op in ops ==> !HasCrLf(op.endpoint) && !HasCrLf(op.err)
  {
    LoadOfWritten(codec, ops, comment, 0, 0);
    assert Selected(AllLoaded(ops), 0, 0, 0) == AllLoaded(ops);
    UnchangedIff(ops);
  }

  lemma UnchangedIff(ops: seq<Operation>)
    ensures AllLoaded(ops) == ops <==> forall op :: op in ops ==> !HasCrLf(op.endpoint) && !HasCrLf(op.err)
  {
    forall j | 0 <= j < |ops|
      ensures AllLoaded(ops)[j] == ops[j] <==> !HasCrLf(ops[j].endpoint) && !HasCrLf(ops[j].err)
      ensures ops[j] in ops
    {
      CrLfToLfIff(ops[j].endpoint);
      CrLfToLfIff(ops[j].err);
    }
  }
}
