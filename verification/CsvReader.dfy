/** `csv_dict_reader`: header mapping, skipping of empty and comment lines, rows, and lookups by column
    name; and the law that reading back a written document yields the rows written. */
module CsvReader {
  import opened Csv
  import opened Options

  datatype Error = DuplicateColumn | ReadFailed | BadEscapeSequence | ColumnsMismatch | NoHeader

  type Columns = map<string, nat>

  // ----- lines

  function LineLength(iss: string): (n: nat)
    ensures n <= |iss|
    ensures n < |iss| ==> iss[n] == '\n'
    ensures forall i :: 0 <= i < n ==> iss[i] != '\n'
  {
    if iss == "" || iss[0] == '\n' then 0 else 1 + LineLength(iss[1..])
  }

  /** std::getline: the line and what is left of the stream, or nothing at the end of it. */
  function Getline(iss: string): (r: Option<(string, string)>)
    ensures r.Some? ==> |r.value.1| < |iss|
  {
    if iss == "" then None
    else
      var n := LineLength(iss);
      Some((iss[..n], if n < |iss| then iss[n + 1..] else ""))
  }

  // ----- what the reader computes

  predicate Skipped(c: Config, line: string) {
    (c.skipEmptyLines && line == "") || (c.comment != '\0' && line != "" && line[0] == c.comment)
  }

  predicate WidthOk(c: Config, columns: Option<Columns>, values: seq<string>) {
    columns.Some? && c.checkColumnsSize ==> |values| == |columns.value|
  }

  /** One call of next(): a row, an exception with the fields read so far, or the end. */
  datatype Outcome = Row(values: seq<string>, rest: string) | Failed(error: Error, values: seq<string>, rest: string) | End

  function NextRow(c: Config, columns: Option<Columns>, iss: string): Outcome
    decreases |iss|
  {
    match Getline(iss)
    case None => End
    case Some((line, rest)) =>
      if Skipped(c, line) then NextRow(c, columns, rest)
      else
        var tokens := ParseLine(c, line);
        if !tokens.ok then Failed(BadEscapeSequence, tokens.values, rest)
        else if !WidthOk(c, columns, tokens.values) then Failed(ColumnsMismatch, tokens.values, rest)
        else Row(tokens.values, rest)
  }

  /** The header mapping, or nothing if a name comes twice. */
  function ColumnsOf(names: seq<string>): Option<Columns> {
    if names == [] then Some(map[])
    else
      var n := |names| - 1;
      match ColumnsOf(names[..n])
      case None => None
      case Some(m) => if names[n] in m then None else Some(m[names[n] := n])
  }

  /** All rows from here on, and the exception that ends them if one does. */
  function ReadAll(c: Config, columns: Option<Columns>, iss: string): (seq<seq<string>>, Option<Error>)
    decreases |iss|
  {
    match NextRow(c, columns, iss)
    case End => ([], None)
    case Failed(error, _, _) => ([], Some(error))
    case Row(values, rest) =>
      RowShrinks(c, columns, iss);
      var (rows, error) := ReadAll(c, columns, rest);
      ([values] + rows, error)
  }

  lemma {:induction false} RowShrinks(c: Config, columns: Option<Columns>, iss: string)
    ensures var r := NextRow(c, columns, iss); !r.End? ==> |r.rest| < |iss|
    decreases |iss|
  {
    var line := Getline(iss);
    if line.Some? && Skipped(c, line.value.0) {
      RowShrinks(c, columns, line.value.1);
    }
  }

  function FieldAt(columns: Columns, values: seq<string>, col: string): Option<string> {
    if col in columns && columns[col] < |values| then Some(values[columns[col]]) else None
  }

  function DataOf(columns: Columns, values: seq<string>): map<string, string> {
    map col | col in columns && columns[col] < |values| :: values[columns[col]]
  }

  // ----- the code

  /** The loop over the tokenizer's tokens (also `parse_csv_line`). */
  method ReadTokens(c: Config, line: string) returns (values: seq<string>, ok: bool)
    ensures Tokens(values, ok) == ParseLine(c, line)
  {
    values := [];
    var rest, last := line, false;
    while rest != "" || last
      invariant ParseLine(c, line).values == values + Tokenize(c, rest, last).values
      invariant ParseLine(c, line).ok == Tokenize(c, rest, last).ok
      decreases |rest|, last
    {
      if rest == "" {
        values := values + [""];
        last := false;
      } else {
        var r := ScanToken(c, rest, false, "");
        if r.BadEscape? {
          assert values + [] == values;
          return values, false;
        }
        ScanShrinks(c, rest, false, "");
        ghost var before, tokens := values, Tokenize(c, r.rest, r.more).values;
        assert Tokenize(c, rest, last).values == [r.text] + tokens;
        values := values + [r.text];
        rest, last := r.rest, r.more;
        assert before + ([r.text] + tokens) == values + tokens;
      }
    }
    assert values + [] == values;
    ok := true;
  }

  class CsvDictReader {
    const config: Config
    var iss: string
    var data: string
    var columns: Option<Columns>
    var values: Option<seq<string>>

    constructor (stream: string, c: Config)
      ensures config == c && iss == stream && columns == None && values == None
    {
      config, iss, data, columns, values := c, stream, "", None, None;
    }

    /** parse_columns, which the source runs from the constructor. */
    method ParseColumns() returns (error: Option<Error>)
      requires columns == None
      modifies this`iss, this`data, this`columns
      ensures !config.parseHeaders ==> error == None && columns == None && iss == old(iss)
      ensures config.parseHeaders && Getline(old(iss)).None? ==> error == Some(ReadFailed)
      ensures config.parseHeaders && Getline(old(iss)).Some? ==>
        var (line, rest) := Getline(old(iss)).value;
        var names := ParseLine(config, line);
        && iss == rest
        && (error == None <==> names.ok && ColumnsOf(names.values).Some?)
        && (error == None ==> columns == ColumnsOf(names.values))
        && (error == Some(DuplicateColumn) <==> ColumnsOf(names.values).None?)
        && (error == Some(BadEscapeSequence) <==> !names.ok && ColumnsOf(names.values).Some?)
    {
      if !config.parseHeaders {
        return None;
      }
      var got := Getline(iss);
      if got.None? {
        return Some(ReadFailed);
      }
      data, iss := got.value.0, got.value.1;
      var names, ok := ReadTokens(config, data);
      var mapping: Columns := map[];
      for idx := 0 to |names|
        invariant ColumnsOf(names[..idx]) == Some(mapping)
      {
        assert names[..idx + 1][..idx] == names[..idx];
        if names[idx] in mapping {
          DuplicateStays(names, idx + 1);
          return Some(DuplicateColumn);
        }
        mapping := mapping[names[idx] := idx];
      }
      assert names[..|names|] == names;
      if !ok {
        return Some(BadEscapeSequence);
      }
      columns := Some(mapping);
      return None;
    }

    /** next(): true with a row, false at the end, or an exception. */
    method Next() returns (got: bool, error: Option<Error>)
      modifies this`iss, this`data, this`values
      ensures match NextRow(config, columns, old(iss))
              case End => !got && error == None && values == None && iss == ""
              case Row(row, rest) => got && error == None && values == Some(row) && iss == rest
              case Failed(e, row, rest) => !got && error == Some(e) && values == Some(row) && iss == rest
    {
      while true
        invariant NextRow(config, columns, iss) == NextRow(config, columns, old(iss))
        decreases |iss|
      {
        var line := Getline(iss);
        if line.None? {
          break;
        }
        data, iss := line.value.0, line.value.1;
        if config.skipEmptyLines && data == "" {
          continue;
        }
        if config.comment != '\0' && data != "" && data[0] == config.comment {
          continue;
        }
        var tokens, ok := ReadTokens(config, data);
        values := Some(tokens);
        if !ok {
          return false, Some(BadEscapeSequence);
        }
        if columns.Some? && config.checkColumnsSize && |tokens| != |columns.value| {
          return false, Some(ColumnsMismatch);
        }
        return true, None;
      }
      values := None;
      return false, None;
    }

    function GetField(mapping: Columns, col: string): (r: Option<string>)
      reads this
      ensures r.Some? <==> values.Some? && col in mapping && mapping[col] < |values.value|
      ensures r.Some? ==> r.value == values.value[mapping[col]]
    {
      if values.None? then None else FieldAt(mapping, values.value, col)
    }

    /** get_data: the next row as a mapping from column names. */
    method GetData() returns (got: bool, target: map<string, string>, error: Option<Error>)
      modifies this`iss, this`data, this`values
      ensures columns.None? ==> !got && error == Some(NoHeader) && iss == old(iss)
      ensures columns.Some? ==>
        match NextRow(config, columns, old(iss))
        case Row(row, rest) => got && error == None && iss == rest && target == DataOf(columns.value, row)
        case Failed(e, row, rest) => !got && error == Some(e)
        case End => !got && error == None
    {
      target := map[];
      if columns.None? {
        return false, target, Some(NoHeader);
      }
      got, error := Next();
      if got {
        var todo := columns.value.Keys;
        while todo != {}
          invariant todo <= columns.value.Keys
          invariant target == map col | col in columns.value && col !in todo && columns.value[col] < |values.value| ::
            values.value[columns.value[col]]
          decreases |todo|
        {
          var col :| col in todo;
          if columns.value[col] < |values.value| {
            target := target[col := values.value[columns.value[col]]];
          }
          todo := todo - {col};
        }
      }
    }
  }

  lemma {:induction false} DuplicateStays(names: seq<string>, n: nat)
    requires n <= |names| && ColumnsOf(names[..n]).None?
    ensures ColumnsOf(names).None?
    decreases |names| - n
  {
    if n < |names| {
      assert names[..n + 1][..n] == names[..n];
      DuplicateStays(names, n + 1);
    } else {
      assert names[..n] == names;
    }
  }

  // ----- which lines are rows

  /** A line that is no row: an empty one, if those are skipped, or one that begins with the comment character. */
  predicate Note(c: Config, line: string) {
    (line == "" && c.skipEmptyLines) || (c.comment != '\0' && [c.comment] <= line)
  }

  lemma SkippedIsNote(c: Config, line: string)
    ensures Skipped(c, line) <==> Note(c, line)
  {
    if line != "" {
      assert [c.comment] <= line <==> line[0] == c.comment;
    }
  }

  /** A comment line, whatever it says, might as well not be there. */
  lemma CommentLine(c: Config, columns: Option<Columns>, text: string, rest: string)
    requires c.comment != '\0' && c.comment != '\n' && '\n' !in text
    ensures NextRow(c, columns, [c.comment] + text + "\n" + rest) == NextRow(c, columns, rest)
  {
    GetlineIs([c.comment] + text, rest);
  }

  /** An empty line is skipped exactly if the configuration says so; otherwise it is a row of no fields. */
  lemma EmptyLine(c: Config, columns: Option<Columns>, rest: string)
    ensures NextRow(c, columns, "\n" + rest) ==
      if c.skipEmptyLines then NextRow(c, columns, rest)
      else if columns.Some? && c.checkColumnsSize && columns.value != map[] then Failed(ColumnsMismatch, [], rest)
      else Row([], rest)
  {
    assert "" + "\n" + rest == "\n" + rest;
    GetlineIs("", rest);
  }

  /** Every other line is a row or an error, and only that line is used up: an escape sequence error, a row that
      is not as wide as a header that is to be checked, or the fields of the line. */
  lemma OtherLine(c: Config, columns: Option<Columns>, line: string, rest: string)
    requires '\n' !in line && line != "" && (c.comment == '\0' || line[0] != c.comment)
    ensures var fields := ParseLine(c, line);
      NextRow(c, columns, line + "\n" + rest) ==
        if !fields.ok then Failed(BadEscapeSequence, fields.values, rest)
        else if columns.Some? && c.checkColumnsSize && |fields.values| != |columns.value|
        then Failed(ColumnsMismatch, fields.values, rest)
        else Row(fields.values, rest)
  {
    GetlineIs(line, rest);
  }

  /** The last line needs no newline. */
  lemma UnendedLine(c: Config, columns: Option<Columns>, line: string)
    requires '\n' !in line && line != ""
    ensures NextRow(c, columns, line) == NextRow(c, columns, line + "\n")
  {
    assert line + "\n" + "" == line + "\n";
    GetlineIs(line, "");
    assert LineLength(line) == |line|;
    assert line[..|line|] == line;
  }

  // ----- notes in a document

  /** The text of a document, line by line. */
  function Joined(lines: seq<string>): string {
    if lines == [] then "" else lines[0] + "\n" + Joined(lines[1..])
  }

  function WithoutNotes(c: Config, lines: seq<string>): seq<string> {
    if lines == [] then []
    else (if Note(c, lines[0]) then [] else [lines[0]]) + WithoutNotes(c, lines[1..])
  }

  /** One line of a document that is no note. */
  lemma ReadLine(c: Config, columns: Option<Columns>, line: string, rest: string, rest': string)
    requires '\n' !in line && ReadAll(c, columns, rest) == ReadAll(c, columns, rest')
    ensures !Note(c, line) ==> ReadAll(c, columns, line + "\n" + rest) == ReadAll(c, columns, line + "\n" + rest')
  {
    GetlineIs(line, rest);
    GetlineIs(line, rest');
    SkippedIsNote(c, line);
  }

  lemma ReadNote(c: Config, columns: Option<Columns>, line: string, rest: string)
    requires '\n' !in line && Note(c, line)
    ensures ReadAll(c, columns, line + "\n" + rest) == ReadAll(c, columns, rest)
  {
    GetlineIs(line, rest);
    SkippedIsNote(c, line);
  }

  /** Notes anywhere in a document change nothing of what is read from it, rows or errors. */
  lemma {:induction false} NotesChangeNothing(c: Config, columns: Option<Columns>, lines: seq<string>)
    requires forall i :: 0 <= i < |lines| ==> '\n' !in lines[i]
    ensures ReadAll(c, columns, Joined(lines)) == ReadAll(c, columns, Joined(WithoutNotes(c, lines)))
  {
    if lines != [] {
      var rest, kept := Joined(lines[1..]), WithoutNotes(c, lines[1..]);
      NotesChangeNothing(c, columns, lines[1..]);
      if Note(c, lines[0]) {
        ReadNote(c, columns, lines[0], rest);
        assert WithoutNotes(c, lines) == kept;
      } else {
        ReadLine(c, columns, lines[0], rest, Joined(kept));
        assert WithoutNotes(c, lines)[1..] == kept;
      }
    }
  }

  function Encoded(c: Config, rows: seq<seq<string>>): seq<string> {
    if rows == [] then [] else [EncodeRow(c, rows[0])] + Encoded(c, rows[1..])
  }

  lemma {:induction false} EncodedJoined(c: Config, rows: seq<seq<string>>)
    ensures Joined(Encoded(c, rows)) == TextOf(c, rows)
  {
    if rows != [] {
      EncodedJoined(c, rows[1..]);
      assert Encoded(c, rows)[1..] == Encoded(c, rows[1..]);
    }
  }

  /** Written rows with comments and empty lines put anywhere between them read back as those rows. */
  lemma AnnotatedReadBack(c: Config, columns: Option<Columns>, rows: seq<seq<string>>, lines: seq<string>)
    requires Good(c) && forall i :: 0 <= i < |rows| ==> Readable(c, columns, rows[i])
    requires forall i :: 0 <= i < |rows| ==> !Note(c, EncodeRow(c, rows[i]))
    requires (forall i :: 0 <= i < |lines| ==> '\n' !in lines[i]) && WithoutNotes(c, lines) == Encoded(c, rows)
    ensures ReadAll(c, columns, Joined(lines)) == (rows, None)
  {
    NotesChangeNothing(c, columns, lines);
    EncodedJoined(c, rows);
    ReadBack(c, columns, rows);
    KeptExactly(c, rows);
  }

  // ----- writing a document and reading it back

  function TextOf(c: Config, rows: seq<seq<string>>): string {
    if rows == [] then "" else EncodeRow(c, rows[0]) + "\n" + TextOf(c, rows[1..])
  }

  /** The rows the reader does not take for an empty line or a comment. */
  function Kept(c: Config, rows: seq<seq<string>>): seq<seq<string>> {
    if rows == [] then []
    else if Note(c, EncodeRow(c, rows[0])) then Kept(c, rows[1..])
    else [rows[0]] + Kept(c, rows[1..])
  }

  lemma {:induction false} LineLengthIs(line: string, rest: string)
    requires '\n' !in line
    ensures LineLength(line + "\n" + rest) == |line|
  {
    var iss := line + "\n" + rest;
    assert iss[|line|] == '\n';
    assert forall i :: 0 <= i < |line| ==> iss[i] == line[i];
  }

  lemma GetlineIs(line: string, rest: string)
    requires '\n' !in line
    ensures Getline(line + "\n" + rest) == Some((line, rest))
  {
    LineLengthIs(line, rest);
    var iss := line + "\n" + rest;
    assert iss[..|line|] == line && iss[|line| + 1..] == rest;
  }

  /** As wide as a header that is to be checked, and not the single empty field, unless empty lines are skipped. */
  predicate Readable(c: Config, columns: Option<Columns>, row: seq<string>) {
    && (columns.Some? && c.checkColumnsSize ==> |row| == |columns.value|)
    && (row == [""] ==> c.skipEmptyLines)
  }

  lemma {:induction false} NextRowOf(c: Config, columns: Option<Columns>, row: seq<string>, rest: string)
    requires Good(c) && Readable(c, columns, row)
    ensures NextRow(c, columns, EncodeRow(c, row) + "\n" + rest) ==
      if Note(c, EncodeRow(c, row)) then NextRow(c, columns, rest) else Row(row, rest)
  {
    var line := EncodeRow(c, row);
    RowNoNewline(c, row);
    GetlineIs(line, rest);
    RowRoundTrip(c, row);
    EmptyText(c, row);
    SkippedIsNote(c, line);
  }

  /** Reading back yields exactly the rows not taken for comments or empty lines, then the end. */
  lemma {:induction false} ReadBack(c: Config, columns: Option<Columns>, rows: seq<seq<string>>)
    requires Good(c) && forall i :: 0 <= i < |rows| ==> Readable(c, columns, rows[i])
    ensures ReadAll(c, columns, TextOf(c, rows)) == (Kept(c, rows), None)
    ensures NextRow(c, columns, TextOf(c, rows)).End? <==> Kept(c, rows) == []
  {
    if rows != [] {
      ReadBack(c, columns, rows[1..]);
      NextRowOf(c, columns, rows[0], TextOf(c, rows[1..]));
    }
  }

  /** So every row comes back if and only if none of them is written as a comment or an empty line. */
  lemma {:induction false} KeptExactly(c: Config, rows: seq<seq<string>>)
    ensures |Kept(c, rows)| <= |rows|
    ensures Kept(c, rows) == rows <==> forall i :: 0 <= i < |rows| ==> !Note(c, EncodeRow(c, rows[i]))
  {
    if rows != [] {
      KeptExactly(c, rows[1..]);
      if Kept(c, rows) == rows {
        assert Kept(c, rows)[1..] == rows[1..];
        assert forall i :: 1 <= i < |rows| ==> rows[i] == rows[1..][i - 1];
      }
      if forall i :: 0 <= i < |rows| ==> !Note(c, EncodeRow(c, rows[i])) {
        assert forall i :: 0 <= i < |rows[1..]| ==> rows[1..][i] == rows[i + 1];
        assert rows == [rows[0]] + rows[1..];
      }
    }
  }

  predicate DistinctNames(names: seq<string>) {
    forall i, j :: 0 <= i < j < |names| ==> names[i] != names[j]
  }

  /** The header mapping exists exactly for distinct names, and sends each to its position. */
  lemma {:induction false} ColumnsExactly(names: seq<string>)
    ensures ColumnsOf(names).Some? <==> DistinctNames(names)
    ensures ColumnsOf(names).Some? ==>
      Positions(names, ColumnsOf(names).value)
  {
    if names != [] {
      var n := |names| - 1;
      ColumnsExactly(names[..n]);
      var before := ColumnsOf(names[..n]);
      if before.None? {
        var i, j :| 0 <= i < j < n && names[..n][i] == names[..n][j];
        assert names[i] == names[j];
      } else {
        OneMoreName(names, before.value);
        if names[n] !in before.value {
          OneMorePosition(names[..n], names[n], before.value);
          assert names == names[..n] + [names[n]];
        }
      }
    }
  }

  predicate Positions(names: seq<string>, m: Columns) {
    && |m| == |names|
    && (forall i :: 0 <= i < |names| ==> names[i] in m && m[names[i]] == i)
    && (forall col :: col in m ==> m[col] < |names| && names[m[col]] == col)
  }

  lemma {:induction false} OneMoreName(names: seq<string>, m: Columns)
    requires names != [] && DistinctNames(names[..|names| - 1]) && Positions(names[..|names| - 1], m)
    ensures names[|names| - 1] !in m <==> DistinctNames(names)
  {
    var n := |names| - 1;
    var before := names[..n];
    assert forall i :: 0 <= i < n ==> before[i] == names[i];
    if names[n] in m {
      assert before[m[names[n]]] == names[n];
    }
  }

  lemma {:induction false} OneMorePosition(before: seq<string>, name: string, m: Columns)
    requires Positions(before, m) && name !in m
    ensures Positions(before + [name], m[name := |before|])
  {
    var after := m[name := |before|];
    assert after.Keys == m.Keys + {name};
  }

  /** The whole document: header and rows written one per line, then opened, read and looked up. Every
      row comes back in order, followed by the end, with each field under its column's name. */
  lemma DocumentRoundTrip(c: Config, header: seq<string>, rows: seq<seq<string>>)
    requires Good(c) && header != [] && header != [""] && DistinctNames(header)
    requires forall i :: 0 <= i < |rows| ==>
      |rows[i]| == |header| && rows[i] != [""] && !Note(c, EncodeRow(c, rows[i]))
    ensures Getline(TextOf(c, [header] + rows)) == Some((EncodeRow(c, header), TextOf(c, rows)))
    ensures ParseLine(c, EncodeRow(c, header)) == Tokens(header, true)
    ensures ColumnsOf(header).Some?
    ensures ReadAll(c, ColumnsOf(header), TextOf(c, rows)) == (rows, None)
    ensures forall i, j :: 0 <= i < |rows| && 0 <= j < |header| ==>
      FieldAt(ColumnsOf(header).value, rows[i], header[j]) == Some(rows[i][j])
    ensures forall i :: 0 <= i < |rows| ==>
      var m := DataOf(ColumnsOf(header).value, rows[i]);
      && (forall col :: col in m <==> col in header)
      && forall j :: 0 <= j < |header| ==> m[header[j]] == rows[i][j]
  {
    assert ([header] + rows)[1..] == rows;
    RowNoNewline(c, header);
    GetlineIs(EncodeRow(c, header), TextOf(c, rows));
    RowRoundTrip(c, header);
    ColumnsExactly(header);
    ReadBack(c, ColumnsOf(header), rows);
    KeptExactly(c, rows);
    forall i | 0 <= i < |rows|
      ensures var m := DataOf(ColumnsOf(header).value, rows[i]);
        && (forall col :: col in m <==> col in header)
        && forall j :: 0 <= j < |header| ==> m[header[j]] == rows[i][j]
    {
      assert |rows[i]| == |header|;
    }
  }
}
