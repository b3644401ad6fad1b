/** The CSV writer and the tokenizer that reads its lines.

    The tokenizer is Boost's `escaped_list_separator`, which is not part of the library; it is modelled
    here from its documented behaviour, and that model is an assumption of everything below. */
module Csv {

  datatype Config = Config(
    parseHeaders: bool,
    skipEmptyLines: bool,
    checkColumnsSize: bool,
    comment: char,
    escape: char,
    coma: char,
    quote: char)

  const DEFAULT_CONFIG := Config(true, true, true, '#', '\\', ',', '\"')

  // ----- the tokenizer

  /** One token, what follows it, and whether a separator ended it; or an escape sequence error. */
  datatype Scan = Token(text: string, rest: string, more: bool) | BadEscape

  function ScanToken(c: Config, s: string, inQuote: bool, text: string): Scan
    decreases |s|
  {
    if s == "" then Token(text, "", false)
    else if s[0] == c.escape then
      if |s| == 1 then BadEscape
      else if s[1] == 'n' then ScanToken(c, s[2..], inQuote, text + ['\n'])
      else if s[1] == c.quote || s[1] == c.coma || s[1] == c.escape then ScanToken(c, s[2..], inQuote, text + [s[1]])
      else BadEscape
    else if s[0] == c.coma then
      if inQuote then ScanToken(c, s[1..], inQuote, text + [s[0]]) else Token(text, s[1..], true)
    else if s[0] == c.quote then ScanToken(c, s[1..], !inQuote, text)
    else ScanToken(c, s[1..], inQuote, text + [s[0]])
  }

  lemma {:induction false} ScanShrinks(c: Config, s: string, inQuote: bool, text: string)
    ensures var r := ScanToken(c, s, inQuote, text); r.Token? && s != "" ==> |r.rest| < |s|
    decreases |s|
  {
    if s != "" {
      if s[0] == c.escape {
        if |s| > 1 {
          ScanShrinks(c, s[2..], inQuote, text + [s[1]]);
          ScanShrinks(c, s[2..], inQuote, text + ['\n']);
        }
      } else {
        ScanShrinks(c, s[1..], inQuote, text + [s[0]]);
        ScanShrinks(c, s[1..], !inQuote, text);
      }
    }
  }

  /** The tokens read, up to an error if there is one. */
  datatype Tokens = Tokens(values: seq<string>, ok: bool)

  /** `last`: a separator at the end of the line still announces one final empty token. */
  function Tokenize(c: Config, s: string, last: bool): Tokens
    decreases |s|
  {
    if s == "" then Tokens(if last then [""] else [], true)
    else
      var r := ScanToken(c, s, false, "");
      if r.BadEscape? then Tokens([], false)
      else
        ScanShrinks(c, s, false, "");
        var rest := Tokenize(c, r.rest, r.more);
        Tokens([r.text] + rest.values, rest.ok)
  }

  function ParseLine(c: Config, line: string): Tokens {
    Tokenize(c, line, false)
  }

  // ----- the writer

  /** find_first_of takes a C string: the characters before the first NUL. */
  function UntilNul(chars: string): string {
    if chars == "" || chars[0] == '\0' then "" else [chars[0]] + UntilNul(chars[1..])
  }

  function SpecialChars(c: Config): string {
    UntilNul([c.escape, c.coma, c.quote, '\n', '\0'])
  }

  predicate NeedsQuotes(c: Config, data: string) {
    exists i :: 0 <= i < |data| && data[i] in SpecialChars(c)
  }

  function EscapeChar(c: Config, ch: char): string {
    if ch == c.escape || ch == c.quote then [c.escape, ch] else if ch == '\n' then [c.escape, 'n'] else [ch]
  }

  function EscapeAll(c: Config, data: string): string {
    if data == "" then "" else EscapeChar(c, data[0]) + EscapeAll(c, data[1..])
  }

  function EncodeField(c: Config, data: string): string {
    if NeedsQuotes(c, data) then [c.quote] + EscapeAll(c, data) + [c.quote] else data
  }

  function EncodeRow(c: Config, row: seq<string>): string {
    if row == [] then ""
    else if |row| == 1 then EncodeField(c, row[0])
    else EncodeField(c, row[0]) + [c.coma] + EncodeRow(c, row[1..])
  }

  lemma {:induction false} EscapeAppend(c: Config, data: string, ch: char)
    ensures EscapeAll(c, data + [ch]) == EscapeAll(c, data) + EscapeChar(c, ch)
  {
    if data == "" {
      assert EscapeAll(c, [ch]) == EscapeChar(c, ch) + "";
    } else {
      EscapeAppend(c, data[1..], ch);
      assert (data + [ch])[1..] == data[1..] + [ch];
    }
  }

  method WriteField(os: string, data: string, c: Config) returns (out: string)
    ensures out == os + EncodeField(c, data)
  {
    var special := SpecialChars(c);
    var found := false;
    for i := 0 to |data|
      invariant found <==> exists j :: 0 <= j < i && data[j] in special
    {
      if data[i] in special {
        found := true;
      }
    }
    if !found {
      return os + data;
    }
    out := os + [c.quote];
    out := WriteEscaped(out, data, c);
    out := out + [c.quote];
  }

  method WriteEscaped(os: string, data: string, c: Config) returns (out: string)
    ensures out == os + EscapeAll(c, data)
  {
    out := os;
    for i := 0 to |data|
      invariant out == os + EscapeAll(c, data[..i])
    {
      EscapeAppend(c, data[..i], data[i]);
      assert data[..i + 1] == data[..i] + [data[i]];
      var ch := data[i];
      if ch == c.escape || ch == c.quote {
        out := out + [c.escape];
        out := out + [ch];
      } else if ch == '\n' {
        out := out + [c.escape];
        out := out + ['n'];
      } else {
        out := out + [ch];
      }
    }
    assert data[..|data|] == data;
  }

  method WriteRow(os: string, row: seq<string>, c: Config) returns (out: string)
    ensures out == os + EncodeRow(c, row)
  {
    out := os;
    if |row| == 0 {
      return;
    }
    out := WriteField(out, row[0], c);
    var i := 1;
    EncodeRowFrom(c, row, 0);
    while i < |row|
      invariant 1 <= i <= |row|
      invariant os + EncodeRow(c, row) == out + RestOfRow(c, row, i)
      decreases |row| - i
    {
      ghost var before, field := out, EncodeField(c, row[i]);
      out := out + [c.coma];
      out := WriteField(out, row[i], c);
      i := i + 1;
      OneField(before, c.coma, field, RestOfRow(c, row, i));
    }
  }

  lemma OneField(before: string, separator: char, field: string, rest: string)
    ensures before + ([separator] + field + rest) == before + [separator] + field + rest
  {
  }

  /** What is left to write after the first i fields. */
  function RestOfRow(c: Config, row: seq<string>, i: nat): string
    decreases |row| - i
  {
    if |row| <= i then "" else [c.coma] + EncodeField(c, row[i]) + RestOfRow(c, row, i + 1)
  }

  lemma {:induction false} EncodeRowFrom(c: Config, row: seq<string>, i: nat)
    requires i < |row|
    ensures EncodeRow(c, row[i..]) == EncodeField(c, row[i]) + RestOfRow(c, row, i + 1)
    ensures i == 0 ==> row[0..] == row
    decreases |row| - i
  {
    if i + 1 < |row| {
      EncodeRowFrom(c, row, i + 1);
      assert row[i..][1..] == row[i + 1..];
    }
  }

  // ----- reading back what was written

  /** The configurations that work: three different special characters, none of them NUL or newline,
      and no confusion with the `n` that stands for an escaped newline. */
  predicate Good(c: Config) {
    && c.escape != c.coma && c.escape != c.quote && c.coma != c.quote
    && c.escape !in ['\0', '\n', 'n'] && c.quote !in ['\0', '\n', 'n'] && c.coma !in ['\0', '\n']
  }

  lemma UntilNulCons(ch: char, rest: string)
    ensures UntilNul([ch] + rest) == if ch == '\0' then "" else [ch] + UntilNul(rest)
  {
    assert ([ch] + rest)[1..] == rest;
  }

  lemma Specials(c: Config)
    requires c.escape != '\0' && c.coma != '\0' && c.quote != '\0'
    ensures SpecialChars(c) == [c.escape, c.coma, c.quote, '\n']
  {
    UntilNulCons(c.escape, [c.coma, c.quote, '\n', '\0']);
    UntilNulCons(c.coma, [c.quote, '\n', '\0']);
    UntilNulCons(c.quote, ['\n', '\0']);
    UntilNulCons('\n', ['\0']);
    assert [c.escape, c.coma, c.quote, '\n', '\0'] == [c.escape] + [c.coma, c.quote, '\n', '\0'];
    assert [c.coma, c.quote, '\n', '\0'] == [c.coma] + [c.quote, '\n', '\0'];
    assert [c.quote, '\n', '\0'] == [c.quote] + ['\n', '\0'];
    assert ['\n', '\0'] == ['\n'] + ['\0'];
  }

  lemma {:induction false} ScanPlain(c: Config, data: string, rest: string, text: string)
    requires forall i :: 0 <= i < |data| ==> data[i] !in [c.escape, c.coma, c.quote]
    ensures ScanToken(c, data + rest, false, text) == ScanToken(c, rest, false, text + data)
  {
    if data == "" {
      assert data + rest == rest && text + data == text;
    } else {
      ScanPlain(c, data[1..], rest, text + [data[0]]);
      assert (data + rest)[1..] == data[1..] + rest;
      assert text + [data[0]] + data[1..] == text + data;
    }
  }

  lemma {:induction false} ScanEscaped(c: Config, data: string, rest: string, text: string)
    requires Good(c)
    ensures ScanToken(c, EscapeAll(c, data) + rest, true, text) == ScanToken(c, rest, true, text + data)
  {
    if data == "" {
      assert EscapeAll(c, data) + rest == rest && text + data == text;
    } else {
      var ch, tail := data[0], EscapeAll(c, data[1..]) + rest;
      ScanEscaped(c, data[1..], rest, text + [ch]);
      assert EscapeAll(c, data) + rest == EscapeChar(c, ch) + tail;
      assert text + [ch] + data[1..] == text + data;
      ScanOne(c, ch, tail, text);
    }
  }

  lemma {:induction false} ScanOne(c: Config, ch: char, tail: string, text: string)
    requires Good(c)
    ensures ScanToken(c, EscapeChar(c, ch) + tail, true, text) == ScanToken(c, tail, true, text + [ch])
  {
    var s := EscapeChar(c, ch) + tail;
    if ch == c.escape || ch == c.quote || ch == '\n' {
      assert s[2..] == tail;
    } else {
      assert s[1..] == tail;
    }
  }

  /** A written field followed by a separator or the end of the line scans to itself. */
  lemma {:induction false} ScanField(c: Config, data: string, rest: string)
    requires Good(c)
    ensures ScanToken(c, EncodeField(c, data) + rest, false, "") == ScanToken(c, rest, false, data)
  {
    Specials(c);
    if NeedsQuotes(c, data) {
      var s := EncodeField(c, data) + rest;
      var inner := [c.quote] + rest;
      assert s[1..] == EscapeAll(c, data) + inner;
      ScanEscaped(c, data, inner, "");
      assert inner[1..] == rest;
      assert "" + data == data;
    } else {
      ScanPlain(c, data, rest, "");
      assert "" + data == data;
    }
  }

  /** A text that scans as `data` up to a separator is the first token. */
  lemma {:induction false} FirstToken(c: Config, text: string, data: string, more: string, last: bool)
    requires Good(c) && ScanToken(c, text, false, "") == ScanToken(c, [c.coma] + more, false, data) && text != ""
    ensures var rest := Tokenize(c, more, true);
      Tokenize(c, text, last) == Tokens([data] + rest.values, rest.ok)
  {
    assert ([c.coma] + more)[1..] == more;
  }

  /** A text that scans as `data` up to the end of the line is the last token. */
  lemma {:induction false} LastToken(c: Config, text: string, data: string, last: bool)
    requires ScanToken(c, text, false, "") == ScanToken(c, "", false, data) && text != ""
    ensures Tokenize(c, text, last) == Tokens([data], true)
  {
    assert [data] + [] == [data];
  }

  /** A text that scans as `data`, alone on a line or announced by a separator, is that one token. */
  lemma {:induction false} OneToken(c: Config, text: string, data: string, last: bool)
    requires ScanToken(c, text, false, "") == ScanToken(c, "", false, data) && (last || text != "")
    requires text == "" ==> data == ""
    ensures Tokenize(c, text, last) == Tokens([data], true)
  {
    if text != "" {
      LastToken(c, text, data, last);
    }
  }

  /** A first token in front of a row that is already known. */
  lemma {:induction false} MoreTokens(c: Config, text: string, row: seq<string>, more: string, last: bool)
    requires Good(c) && row != [] && text != ""
    requires ScanToken(c, text, false, "") == ScanToken(c, [c.coma] + more, false, row[0])
    requires Tokenize(c, more, true) == Tokens(row[1..], true)
    ensures Tokenize(c, text, last) == Tokens(row, true)
  {
    FirstToken(c, text, row[0], more, last);
    assert row == [row[0]] + row[1..];
  }

  lemma {:induction false} TokenizeRow(c: Config, row: seq<string>, last: bool)
    requires Good(c) && row != [] && (last || EncodeRow(c, row) != "")
    ensures Tokenize(c, EncodeRow(c, row), last) == Tokens(row, true)
  {
    if |row| == 1 {
      ScanField(c, row[0], "");
      assert EncodeField(c, row[0]) + "" == EncodeField(c, row[0]);
      OneToken(c, EncodeField(c, row[0]), row[0], last);
      assert row == [row[0]];
    } else {
      var more := EncodeRow(c, row[1..]);
      ScanField(c, row[0], [c.coma] + more);
      Joins(EncodeField(c, row[0]), c.coma, more);
      TokenizeRow(c, row[1..], true);
      MoreTokens(c, EncodeField(c, row[0]) + ([c.coma] + more), row, more, last);
    }
  }

  lemma {:induction false} Joins(field: string, coma: char, more: string)
    ensures field + [coma] + more == field + ([coma] + more)
  {
  }

  lemma {:induction false} EmptyText(c: Config, row: seq<string>)
    ensures EncodeRow(c, row) == "" <==> row == [] || row == [""]
  {
  }

  lemma {:induction false} EscapedNoNewline(c: Config, data: string)
    requires Good(c)
    ensures '\n' !in EscapeAll(c, data)
  {
    if data != "" {
      EscapedNoNewline(c, data[1..]);
    }
  }

  lemma {:induction false} RowNoNewline(c: Config, row: seq<string>)
    requires Good(c)
    ensures '\n' !in EncodeRow(c, row)
  {
    if row != [] {
      Specials(c);
      EscapedNoNewline(c, row[0]);
      RowNoNewline(c, row[1..]);
    }
  }

  /** The row survives: its text stays on one line and tokenizes to the row itself. */
  predicate RoundTrips(c: Config, row: seq<string>) {
    '\n' !in EncodeRow(c, row) && ParseLine(c, EncodeRow(c, row)) == Tokens(row, true)
  }

  /** With a good configuration every row survives except the one of a single empty field. */
  lemma RowRoundTrip(c: Config, row: seq<string>)
    requires Good(c)
    ensures RoundTrips(c, row) <==> row != [""]
  {
    RowNoNewline(c, row);
    EmptyText(c, row);
    if row != [] && row != [""] {
      TokenizeRow(c, row, false);
    }
  }

  // ----- no other configuration works

  /** SpecialChars never invents a character, and without the three being NUL-free it lacks newline. */
  lemma SpecialsWithNul(c: Config)
    requires c.escape != '\n' && c.coma != '\n' && c.quote != '\n'
    requires c.escape == '\0' || c.coma == '\0' || c.quote == '\0'
    ensures '\n' !in SpecialChars(c)
  {
    UntilNulCons(c.escape, [c.coma, c.quote, '\n', '\0']);
    UntilNulCons(c.coma, [c.quote, '\n', '\0']);
    UntilNulCons(c.quote, ['\n', '\0']);
    assert [c.escape, c.coma, c.quote, '\n', '\0'] == [c.escape] + [c.coma, c.quote, '\n', '\0'];
    assert [c.coma, c.quote, '\n', '\0'] == [c.coma] + [c.quote, '\n', '\0'];
    assert [c.quote, '\n', '\0'] == [c.quote] + ['\n', '\0'];
  }

  /** A one-character field. */
  lemma EncodeSingle(c: Config, ch: char)
    ensures EncodeRow(c, [[ch]]) ==
      if ch in SpecialChars(c) then [c.quote] + EscapeChar(c, ch) + [c.quote] else [ch]
  {
    var data := [ch];
    assert data[1..] == "";
    assert EscapeAll(c, data) == EscapeChar(c, ch) + "";
    if ch in SpecialChars(c) {
      assert data[0] in SpecialChars(c);
    }
  }

  lemma EncodeTwoEmpty(c: Config)
    ensures EncodeRow(c, ["", ""]) == [c.coma]
  {
    assert ["", ""][1..] == [""];
    assert "" + [c.coma] + "" == [c.coma];
  }

  lemma NewlineFails(c: Config)
    requires c.escape == '\n' || c.quote == '\n' || c.coma != '\n'
    requires c.escape in ['\0', '\n'] || c.quote in ['\0', '\n'] || c.coma == '\0'
    ensures '\n' in EncodeRow(c, ["\n"])
  {
    assert "\n" == ['\n'];
    EncodeSingle(c, '\n');
    var text := EncodeRow(c, ["\n"]);
    if c.escape == '\n' {
      UntilNulCons(c.escape, [c.coma, c.quote, '\n', '\0']);
      assert [c.escape, c.coma, c.quote, '\n', '\0'] == [c.escape] + [c.coma, c.quote, '\n', '\0'];
      assert text[1] == '\n';
    } else if c.quote == '\n' {
      assert text[0] == '\n';
    } else {
      SpecialsWithNul(c);
      assert text[0] == '\n';
    }
  }

  /** Escape and quote the same: the quote character comes back doubled. */
  lemma SameEscapeQuote(c: Config)
    requires c.escape == c.quote && c.escape !in ['\0', '\n'] && c.coma !in ['\0', '\n']
    ensures !RoundTrips(c, [[c.quote]])
  {
    var q := c.quote;
    Specials(c);
    EncodeSingle(c, q);
    var s := [q, q, q, q];
    assert EncodeRow(c, [[q]]) == s;
    assert s[2..] == [q, q] && [q, q][2..] == "";
    var one := if q == 'n' then '\n' else q;
    assert ScanToken(c, s, false, "") == ScanToken(c, [q, q], false, "" + [one]);
    assert ScanToken(c, [q, q], false, "" + [one]) == ScanToken(c, "", false, "" + [one] + [one]);
    assert |"" + [one] + [one]| == 2;
  }

  /** Separator and quote the same: the opening quote ends an empty token. */
  lemma SameComaQuote(c: Config)
    requires c.coma == c.quote && c.escape != c.coma && c.escape !in ['\0', '\n'] && c.coma !in ['\0', '\n']
    ensures !RoundTrips(c, [[c.quote]])
  {
    var q := c.quote;
    Specials(c);
    EncodeSingle(c, q);
    var s := EncodeRow(c, [[q]]);
    assert s[0] == q;
    assert ScanToken(c, s, false, "") == Token("", s[1..], true);
    assert ParseLine(c, s).ok ==> ParseLine(c, s).values[0] == "";
  }

  /** An escaped `n` is a newline: neither escape nor quote can be `n`. */
  lemma EscapedLetter(c: Config)
    requires c.escape != c.coma && c.escape != c.quote && c.coma != c.quote
    requires c.escape !in ['\0', '\n'] && c.quote !in ['\0', '\n'] && c.coma !in ['\0', '\n']
    requires c.escape == 'n' || c.quote == 'n'
    ensures !RoundTrips(c, ["n"])
  {
    assert "n" == ['n'];
    Specials(c);
    EncodeSingle(c, 'n');
    var s := [c.quote, c.escape, 'n', c.quote];
    assert EncodeRow(c, ["n"]) == s;
    assert s[1..] == [c.escape, 'n', c.quote] && [c.escape, 'n', c.quote][2..] == [c.quote] && [c.quote][1..] == "";
    assert ScanToken(c, s, false, "") == ScanToken(c, [c.escape, 'n', c.quote], true, "");
    assert ScanToken(c, [c.escape, 'n', c.quote], true, "") == ScanToken(c, [c.quote], true, "" + ['\n']);
    assert ScanToken(c, [c.quote], true, "" + ['\n']) == ScanToken(c, "", false, "" + ['\n']);
    assert ParseLine(c, s).values[0] == "" + ['\n'];
    assert ("" + ['\n'])[0] != 'n';
  }

  /** A row every bad configuration loses. */
  function LostRow(c: Config): seq<string> {
    if c.coma == '\n' && c.escape != '\n' && c.quote != '\n' then ["", ""]
    else if c.escape in ['\0', '\n'] || c.quote in ['\0', '\n'] || c.coma in ['\0', '\n'] then ["\n"]
    else if c.escape == c.coma then ["", ""]
    else if c.escape == c.quote || c.coma == c.quote then [[c.quote]]
    else ["n"]
  }

  lemma BadConfigLoses(c: Config)
    requires !Good(c)
    ensures LostRow(c) != [""] && !RoundTrips(c, LostRow(c))
  {
    if c.coma == '\n' && c.escape != '\n' && c.quote != '\n' {
      EncodeTwoEmpty(c);
    } else if c.escape in ['\0', '\n'] || c.quote in ['\0', '\n'] || c.coma in ['\0', '\n'] {
      NewlineFails(c);
    } else if c.escape == c.coma {
      EncodeTwoEmpty(c);
      assert ScanToken(c, [c.coma], false, "").BadEscape?;
    } else if c.escape == c.quote {
      SameEscapeQuote(c);
    } else if c.coma == c.quote {
      SameComaQuote(c);
    } else {
      EscapedLetter(c);
    }
  }

  /** The condition on the configuration is exact: it holds if and only if every row other than the
      single empty field can be written and read back. */
  lemma GoodExactly(c: Config)
    ensures Good(c) <==> forall row: seq<string> :: row != [""] ==> RoundTrips(c, row)
  {
    if Good(c) {
      forall row: seq<string> | row != [""]
        ensures RoundTrips(c, row)
      {
        RowRoundTrip(c, row);
      }
    } else {
      BadConfigLoses(c);
    }
  }

  // ----- how the writer spells a field

  /** A field is written as it is, unless it holds an escape, separator, quote or newline; then it stands between
      quotes, and what is between them is as long as the field and one escape for each of its characters that has
      to have one. */
  lemma FieldSpelling(c: Config, data: string)
    requires Good(c)
    ensures var plain := forall ch :: ch in data ==> ch !in {c.escape, c.coma, c.quote, '\n'};
      var text := EncodeField(c, data);
      if plain then text == data
      else |text| == |data| + Escapes(c, data) + 2 && text[0] == c.quote && text[|text| - 1] == c.quote
  {
    Specials(c);
    EscapedLength(c, data);
    if NeedsQuotes(c, data) {
      var i :| 0 <= i < |data| && data[i] in SpecialChars(c);
      assert data[i] in data;
    } else {
      assert forall ch :: ch in data ==> ch !in SpecialChars(c);
    }
  }

  /** How many characters of a field have to be escaped inside quotes. */
  function Escapes(c: Config, data: string): nat {
    if data == "" then 0
    else (if data[0] in {c.escape, c.quote, '\n'} then 1 else 0) + Escapes(c, data[1..])
  }

  lemma {:induction false} EscapedLength(c: Config, data: string)
    ensures |EscapeAll(c, data)| == |data| + Escapes(c, data)
  {
    if data != "" {
      EscapedLength(c, data[1..]);
    }
  }

  // ----- what the writer never writes, but the tokenizer reads

  /** A field without quotes: the separator is escaped too. */
  function EscapeBare(c: Config, data: string): string {
    if data == "" then ""
    else (if data[0] == c.coma then [c.escape, data[0]] else EscapeChar(c, data[0])) + EscapeBare(c, data[1..])
  }

  function BareRow(c: Config, row: seq<string>): string {
    if row == [] then ""
    else if |row| == 1 then EscapeBare(c, row[0])
    else EscapeBare(c, row[0]) + [c.coma] + BareRow(c, row[1..])
  }

  lemma {:induction false} ScanBareOne(c: Config, ch: char, tail: string, text: string)
    requires Good(c) && c.coma != 'n'
    ensures var s := (if ch == c.coma then [c.escape, ch] else EscapeChar(c, ch)) + tail;
      ScanToken(c, s, false, text) == ScanToken(c, tail, false, text + [ch])
  {
    var s := (if ch == c.coma then [c.escape, ch] else EscapeChar(c, ch)) + tail;
    if ch == c.escape || ch == c.quote || ch == c.coma || ch == '\n' {
      assert s[2..] == tail;
    } else {
      assert s[1..] == tail;
    }
  }

  lemma {:induction false} ScanBare(c: Config, data: string, rest: string, text: string)
    requires Good(c) && c.coma != 'n'
    ensures ScanToken(c, EscapeBare(c, data) + rest, false, text) == ScanToken(c, rest, false, text + data)
  {
    if data == "" {
      assert EscapeBare(c, data) + rest == rest && text + data == text;
    } else {
      var ch, tail := data[0], EscapeBare(c, data[1..]) + rest;
      ScanBare(c, data[1..], rest, text + [ch]);
      assert EscapeBare(c, data) + rest == (if ch == c.coma then [c.escape, ch] else EscapeChar(c, ch)) + tail;
      assert text + [ch] + data[1..] == text + data;
      ScanBareOne(c, ch, tail, text);
    }
  }

  lemma {:induction false} TokenizeBare(c: Config, row: seq<string>, last: bool)
    requires Good(c) && c.coma != 'n' && row != [] && (last || BareRow(c, row) != "")
    ensures Tokenize(c, BareRow(c, row), last) == Tokens(row, true)
  {
    assert "" + row[0] == row[0];
    if |row| == 1 {
      ScanBare(c, row[0], "", "");
      assert EscapeBare(c, row[0]) + "" == EscapeBare(c, row[0]);
      OneToken(c, EscapeBare(c, row[0]), row[0], last);
      assert row == [row[0]];
    } else {
      var more := BareRow(c, row[1..]);
      ScanBare(c, row[0], [c.coma] + more, "");
      Joins(EscapeBare(c, row[0]), c.coma, more);
      TokenizeBare(c, row[1..], true);
      MoreTokens(c, EscapeBare(c, row[0]) + ([c.coma] + more), row, more, last);
    }
  }

  /** Escapes alone, without any quotes, spell every row too, the separator by an escape before it. */
  lemma BareRoundTrip(c: Config, row: seq<string>)
    requires Good(c) && c.coma != 'n' && row != [""]
    ensures ParseLine(c, BareRow(c, row)) == Tokens(row, true)
  {
    if row != [] {
      TokenizeBare(c, row, false);
    }
  }

  lemma {:induction false} StrayScan(c: Config, rest: string, data: string)
    requires rest == "" || rest[0] !in ['n', c.quote, c.coma, c.escape]
    ensures ScanToken(c, [c.escape] + rest, false, data).BadEscape?
  {
  }

  lemma {:induction false} FieldThenStray(c: Config, data: string, rest: string)
    requires Good(c) && (rest == "" || rest[0] !in ['n', c.quote, c.coma, c.escape])
    ensures ParseLine(c, EncodeField(c, data) + ([c.escape] + rest)) == Tokens([], false)
  {
    ScanField(c, data, [c.escape] + rest);
    StrayScan(c, rest, data);
  }

  /** An escape before any other character, or at the end of the line, is an error, also behind other fields. */
  lemma {:induction false} StrayEscape(c: Config, row: seq<string>, data: string, rest: string)
    requires Good(c) && (rest == "" || rest[0] !in ['n', c.quote, c.coma, c.escape])
    ensures ParseLine(c, Lead(c, row) + (EncodeField(c, data) + ([c.escape] + rest))) == Tokens(row, false)
  {
    FieldThenStray(c, data, rest);
    LeadFirst(c, row, EncodeField(c, data) + ([c.escape] + rest), false);
    assert row + [] == row;
  }

  /** Fields, each with the separator behind it. */
  function Lead(c: Config, row: seq<string>): string {
    if row == [] then "" else EncodeField(c, row[0]) + [c.coma] + Lead(c, row[1..])
  }

  lemma {:induction false} LeadFirst(c: Config, row: seq<string>, s: string, last: bool)
    requires Good(c) && s != ""
    ensures Tokenize(c, Lead(c, row) + s, last) == Tokens(row + ParseLine(c, s).values, ParseLine(c, s).ok)
  {
    if row == [] {
      assert Lead(c, row) + s == s;
    } else {
      var more, end := Lead(c, row[1..]) + s, ParseLine(c, s);
      LeadFirst(c, row[1..], s, true);
      ScanField(c, row[0], [c.coma] + more);
      LeadJoins(EncodeField(c, row[0]), c.coma, Lead(c, row[1..]), s);
      FirstToken(c, Lead(c, row) + s, row[0], more, last);
      assert [row[0]] + (row[1..] + end.values) == row + end.values;
    }
  }

  lemma {:induction false} LeadJoins(field: string, coma: char, lead: string, s: string)
    ensures field + [coma] + lead + s == field + ([coma] + (lead + s))
  {
  }

  /** The default configuration is good. */
  lemma DefaultGood(row: seq<string>)
    ensures Good(DEFAULT_CONFIG) && (RoundTrips(DEFAULT_CONFIG, row) <==> row != [""])
  {
    RowRoundTrip(DEFAULT_CONFIG, row);
  }
}
