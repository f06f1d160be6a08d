/**
 * `handleConvertToCsv`: the choice of columns, the header, the per-cell escaping of
 * `escapeCsvField` and the joining of fields and rows. A reader for the produced text
 * (fields separated by ",", records by a line feed, quoted fields with doubled quotes, as in
 * section 2 of RFC 4180) is the partner the escaping is proved against.
 */
module CsvExport {
  import opened Wrappers
  import opened Json
  import opened ColumnConfig

  // ---------------------------------------------------------------------------------------
  // Escaping one field
  // ---------------------------------------------------------------------------------------

  /** The characters that force a field into quotes: `,`, `"` and the line feed. */
  predicate NeedsQuoting(s: string)
  {
    ',' in s || '"' in s || '\n' in s
  }

  /** `s.replace(/"/g, '""')`. */
  function DoubleQuotes(s: string): string
  {
    if s == [] then [] else (if s[0] == '"' then "\"\"" else [s[0]]) + DoubleQuotes(s[1..])
  }

  /** A string without quotes is left as it is. */
  lemma {:induction false} DoubleQuotesNoQuote(s: string)
    requires '"' !in s
    ensures DoubleQuotes(s) == s
  {
    if s != [] {
      assert '"' !in s[1..];
      DoubleQuotesNoQuote(s[1..]);
      assert s == [s[0]] + s[1..];
    }
  }

  /** Turns every `""` back into `"`: the reading of a quoted field's interior. */
  function UndoubleQuotes(s: string): string
  {
    if s == [] then []
    else if |s| >= 2 && s[0] == '"' && s[1] == '"' then "\"" + UndoubleQuotes(s[2..])
    else [s[0]] + UndoubleQuotes(s[1..])
  }

  /** Un-doubling recovers the string whose quotes were doubled. */
  lemma {:induction false} UndoubleDouble(s: string)
    ensures UndoubleQuotes(DoubleQuotes(s)) == s
  {
    if s != [] {
      var d := DoubleQuotes(s);
      UndoubleDouble(s[1..]);
      if s[0] == '"' {
        assert d[2..] == DoubleQuotes(s[1..]);
      } else {
        assert d[1..] == DoubleQuotes(s[1..]);
      }
    }
  }

  /** `"` + the string with every `"` doubled + `"`. */
  function Quote(s: string): (r: string)
    ensures |r| >= 2 && r[0] == '"' && r[|r| - 1] == '"'
  {
    "\"" + DoubleQuotes(s) + "\""
  }

  /** `escapeCsvField(field, defaultValue)`. `None` for `field` is `undefined`; a `None`
      result is the TypeError `String(field)` throws. */
  function EscapeCsvField(field: Option<JsonValue>, defaultValue: Option<string>, numberText: NumberText)
    : (r: Option<string>)
    ensures r.None? ==> field.Some? && !field.value.JNull? && Coerce(field.value, numberText).None?
  {
    if field.None? || field.value.JNull? then
      Some(match defaultValue case Some(d) => Quote(d) case None => "")
    else
      match Coerce(field.value, numberText)
      case None => None
      case Some(str) => Some(if NeedsQuoting(str) then Quote(str) else str)
  }

  /** A present value comes out as its string, unchanged when it has no `,`, `"` or line feed,
      and otherwise quoted with its quotes doubled, so that un-doubling the interior gives
      the string back. */
  lemma EscapePresent(v: JsonValue, defaultValue: Option<string>, numberText: NumberText, str: string)
    requires !v.JNull? && Coerce(v, numberText) == Some(str)
    ensures !NeedsQuoting(str) ==> EscapeCsvField(Some(v), defaultValue, numberText) == Some(str)
    ensures NeedsQuoting(str) ==>
      var e := EscapeCsvField(Some(v), defaultValue, numberText).value;
      e == Quote(str) && |e| >= 2 && e[0] == e[|e| - 1] == '"' && UndoubleQuotes(e[1..|e| - 1]) == str
  {
    if NeedsQuoting(str) {
      var e := Quote(str);
      assert e[1..|e| - 1] == DoubleQuotes(str);
      UndoubleDouble(str);
    }
  }

  /** A missing or null value comes out empty when there is no default, and as the quoted
      default, even an empty one, when there is. */
  lemma EscapeMissing(field: Option<JsonValue>, defaultValue: Option<string>, numberText: NumberText)
    requires field.None? || field.value.JNull?
    ensures defaultValue.None? ==> EscapeCsvField(field, defaultValue, numberText) == Some("")
    ensures defaultValue.Some? ==>
      var e := EscapeCsvField(field, defaultValue, numberText).value;
      e == Quote(defaultValue.value) && UndoubleQuotes(e[1..|e| - 1]) == defaultValue.value
  {
    if defaultValue.Some? {
      var e := Quote(defaultValue.value);
      assert e[1..|e| - 1] == DoubleQuotes(defaultValue.value);
      UndoubleDouble(defaultValue.value);
    }
  }

  /** The text a cell stands for: the value's string, or the default (empty if none) when the
      value is missing or null. */
  function CellText(field: Option<JsonValue>, defaultValue: Option<string>, numberText: NumberText)
    : Option<string>
  {
    if field.None? || field.value.JNull? then Some(defaultValue.GetOr(""))
    else Coerce(field.value, numberText)
  }

  /** `e` is a well-formed rendering of the text `x`: bare if nothing forces quotes, or quoted. */
  predicate Encodes(e: string, x: string)
  {
    (e == x && !NeedsQuoting(x)) || e == Quote(x)
  }

  lemma EscapeEncodes(field: Option<JsonValue>, defaultValue: Option<string>, numberText: NumberText)
    ensures EscapeCsvField(field, defaultValue, numberText).Some? <==> CellText(field, defaultValue, numberText).Some?
    ensures EscapeCsvField(field, defaultValue, numberText).Some? ==>
      Encodes(EscapeCsvField(field, defaultValue, numberText).value, CellText(field, defaultValue, numberText).value)
  {
  }

  // ---------------------------------------------------------------------------------------
  // Reading the text back
  // ---------------------------------------------------------------------------------------

  /** Reads a quoted field's interior up to its closing quote: the text and what follows. */
  function ParseQuoted(s: string): (r: (string, string))
    ensures |r.1| <= |s|
  {
    if s == [] then ([], [])
    else if s[0] == '"' then
      if |s| > 1 && s[1] == '"' then
        var (c, rest) := ParseQuoted(s[2..]); ("\"" + c, rest)
      else ([], s[1..])
    else
      var (c, rest) := ParseQuoted(s[1..]); ([s[0]] + c, rest)
  }

  /** Reads an unquoted field up to the next `,` or line feed. */
  function ParseBare(s: string): (r: (string, string))
    ensures |r.1| <= |s|
  {
    if s == [] || s[0] == ',' || s[0] == '\n' then ([], s)
    else var (c, rest) := ParseBare(s[1..]); ([s[0]] + c, rest)
  }

  function ParseField(s: string): (r: (string, string))
    ensures |r.1| <= |s|
  {
    if s != [] && s[0] == '"' then ParseQuoted(s[1..]) else ParseBare(s)
  }

  /** Reads the fields of one record, up to a line feed or the end. */
  function ParseLine(s: string): (r: (seq<string>, string))
    ensures |r.1| <= |s|
    decreases |s|
  {
    var (f, rest) := ParseField(s);
    if rest != [] && rest[0] == ',' then
      var (fs, rest') := ParseLine(rest[1..]); ([f] + fs, rest')
    else ([f], rest)
  }

  /** Reads every record of a text. */
  function ParseLines(s: string): seq<seq<string>>
    decreases |s|
  {
    var (fs, rest) := ParseLine(s);
    if rest == [] then [fs] else [fs] + ParseLines(rest[1..])
  }

  /** What may follow a field: nothing, a `,` or a line feed. */
  predicate Delimited(t: string)
  {
    t == [] || t[0] == ',' || t[0] == '\n'
  }

  lemma ParseQuotedPairStep(rest: string)
    ensures ParseQuoted("\"\"" + rest) == ("\"" + ParseQuoted(rest).0, ParseQuoted(rest).1)
  {
    assert ("\"\"" + rest)[2..] == rest;
  }

  lemma ParseQuotedCharStep(c: char, rest: string)
    requires c != '"'
    ensures ParseQuoted([c] + rest) == ([c] + ParseQuoted(rest).0, ParseQuoted(rest).1)
  {
    assert ([c] + rest)[1..] == rest;
  }

  lemma ParseQuotedDoubledQuote(x: string, t: string)
    requires x != [] && x[0] == '"'
    requires ParseQuoted(DoubleQuotes(x[1..]) + "\"" + t) == (x[1..], t)
    ensures ParseQuoted(DoubleQuotes(x) + "\"" + t) == (x, t)
  {
    var tail := DoubleQuotes(x[1..]) + "\"" + t;
    assert DoubleQuotes(x) + "\"" + t == "\"\"" + tail;
    ParseQuotedPairStep(tail);
    assert x == "\"" + x[1..];
  }

  lemma ParseQuotedDoubledChar(x: string, t: string)
    requires x != [] && x[0] != '"'
    requires ParseQuoted(DoubleQuotes(x[1..]) + "\"" + t) == (x[1..], t)
    ensures ParseQuoted(DoubleQuotes(x) + "\"" + t) == (x, t)
  {
    var tail := DoubleQuotes(x[1..]) + "\"" + t;
    assert DoubleQuotes(x) + "\"" + t == [x[0]] + tail;
    ParseQuotedCharStep(x[0], tail);
    assert x == [x[0]] + x[1..];
  }

  lemma {:induction false} ParseQuotedDoubled(x: string, t: string)
    requires t == [] || t[0] != '"'
    ensures ParseQuoted(DoubleQuotes(x) + "\"" + t) == (x, t)
  {
    if x == [] {
      var s := DoubleQuotes(x) + "\"" + t;
      assert s == "\"" + t;
      assert s[1..] == t;
    } else {
      ParseQuotedDoubled(x[1..], t);
      if x[0] == '"' {
        ParseQuotedDoubledQuote(x, t);
      } else {
        ParseQuotedDoubledChar(x, t);
      }
    }
  }

  lemma {:induction false} ParseBarePlain(x: string, t: string)
    requires ',' !in x && '\n' !in x && Delimited(t)
    ensures ParseBare(x + t) == (x, t)
  {
    if x != [] {
      assert (x + t)[1..] == x[1..] + t;
      assert (x + t)[0] == x[0];
      assert x == [x[0]] + x[1..];
      ParseBarePlain(x[1..], t);
    } else {
      assert x + t == t;
    }
  }

  /** A rendered field is read back as its text, leaving what follows it. */
  lemma ParseFieldEncoded(e: string, x: string, t: string)
    requires Encodes(e, x) && Delimited(t)
    ensures ParseField(e + t) == (x, t)
  {
    if e == Quote(x) {
      assert (e + t)[1..] == DoubleQuotes(x) + "\"" + t;
      ParseQuotedDoubled(x, t);
    } else {
      if x != [] { assert (e + t)[0] == x[0]; }
      ParseBarePlain(x, t);
    }
  }

  /** `parts.join(sep)`. */
  function JoinWith(sep: char, parts: seq<string>): string
  {
    if parts == [] then ""
    else if |parts| == 1 then parts[0]
    else parts[0] + [sep] + JoinWith(sep, parts[1..])
  }

  /** A record of rendered fields joined with "," is read back as the fields' texts. */
  lemma {:induction false} ParseLineJoined(es: seq<string>, xs: seq<string>, t: string)
    requires |es| == |xs| >= 1
    requires forall j :: 0 <= j < |es| ==> Encodes(es[j], xs[j])
    requires t == [] || t[0] == '\n'
    ensures ParseLine(JoinWith(',', es) + t) == (xs, t)
  {
    if |es| == 1 {
      ParseFieldEncoded(es[0], xs[0], t);
      assert xs == [xs[0]];
    } else {
      var more := JoinWith(',', es[1..]) + t;
      assert JoinWith(',', es) + t == es[0] + ("," + more);
      ParseFieldEncoded(es[0], xs[0], "," + more);
      assert ("," + more)[1..] == more;
      ParseLineJoined(es[1..], xs[1..], t);
      assert xs == [xs[0]] + xs[1..];
    }
  }

  /** Each record's rendered fields joined with ",". */
  function JoinRows(table: seq<seq<string>>): (r: seq<string>)
    ensures |r| == |table|
    ensures forall i :: 0 <= i < |table| ==> r[i] == JoinWith(',', table[i])
  {
    if table == [] then [] else [JoinWith(',', table[0])] + JoinRows(table[1..])
  }

  /** `rendered` renders `texts` cell by cell, with at least one cell in every record. */
  ghost predicate EncodedTable(rendered: seq<seq<string>>, texts: seq<seq<string>>)
  {
    |rendered| == |texts| &&
    forall i :: 0 <= i < |rendered| ==>
      |rendered[i]| == |texts[i]| >= 1 &&
      forall j :: 0 <= j < |rendered[i]| ==> Encodes(rendered[i][j], texts[i][j])
  }

  lemma EncodedTableTail(rendered: seq<seq<string>>, texts: seq<seq<string>>)
    requires |rendered| >= 1 && EncodedTable(rendered, texts)
    ensures EncodedTable(rendered[1..], texts[1..])
  {
    forall i | 0 <= i < |rendered| - 1
      ensures |rendered[1..][i]| == |texts[1..][i]| >= 1
      ensures forall j :: 0 <= j < |rendered[1..][i]| ==> Encodes(rendered[1..][i][j], texts[1..][i][j])
    {
      assert rendered[1..][i] == rendered[i + 1] && texts[1..][i] == texts[i + 1];
    }
  }

  lemma ParseLinesStep(s: string, fs: seq<string>, more: string)
    requires ParseLine(s) == (fs, "\n" + more)
    ensures ParseLines(s) == [fs] + ParseLines(more)
  {
    assert ("\n" + more)[1..] == more;
  }

  lemma JoinWithCons(sep: char, parts: seq<string>)
    requires |parts| >= 2
    ensures JoinWith(sep, parts) == parts[0] + ([sep] + JoinWith(sep, parts[1..]))
  {
  }

  /** Records joined with line feeds are read back record by record. */
  lemma {:induction false} ParseLinesJoined(rendered: seq<seq<string>>, texts: seq<seq<string>>)
    requires |rendered| >= 1 && EncodedTable(rendered, texts)
    ensures ParseLines(JoinWith('\n', JoinRows(rendered))) == texts
  {
    var lines := JoinRows(rendered);
    var row, text := rendered[0], texts[0];
    assert |row| == |text| >= 1 && forall j :: 0 <= j < |row| ==> Encodes(row[j], text[j]);
    if |rendered| == 1 {
      ParseLineJoined(row, text, []);
      assert lines[0] + [] == lines[0];
      assert texts == [text];
    } else {
      var more := JoinWith('\n', lines[1..]);
      var s := JoinWith('\n', lines);
      assert lines[1..] == JoinRows(rendered[1..]);
      JoinWithCons('\n', lines);
      assert s == JoinWith(',', row) + ("\n" + more);
      ParseLineJoined(row, text, "\n" + more);
      ParseLinesStep(s, text, more);
      EncodedTableTail(rendered, texts);
      ParseLinesJoined(rendered[1..], texts[1..]);
      assert texts == [text] + texts[1..];
    }
  }

  // ---------------------------------------------------------------------------------------
  // Choosing the columns
  // ---------------------------------------------------------------------------------------

  /** `cs.filter(config => config.isSelected)`. */
  function SelectedConfigs(cs: seq<KeyConfig>): (r: seq<KeyConfig>)
    ensures |r| <= |cs|
    ensures forall c :: c in r <==> c in cs && c.isSelected
  {
    if cs == [] then []
    else
      var n := |cs| - 1;
      SelectedConfigs(cs[..n]) + (if cs[n].isSelected then [cs[n]] else [])
  }

  /** Filtering a concatenation filters each part and keeps them in that order: the selected
      entries come out in table order, repetitions included. */
  lemma {:induction false} SelectedConfigsAppend(a: seq<KeyConfig>, b: seq<KeyConfig>)
    ensures SelectedConfigs(a + b) == SelectedConfigs(a) + SelectedConfigs(b)
  {
    if b != [] {
      var ab, n := a + b, |b| - 1;
      assert ab[..|ab| - 1] == a + b[..n];
      assert ab[|ab| - 1] == b[n];
      SelectedConfigsAppend(a, b[..n]);
    } else {
      assert a + b == a;
    }
  }

  lemma SelectedConfigsSnoc(init: seq<KeyConfig>, c: KeyConfig)
    ensures SelectedConfigs(init + [c]) == SelectedConfigs(init) + (if c.isSelected then [c] else [])
  {
    assert (init + [c])[..|init|] == init;
  }

  /** A list whose entries are all selected is kept whole, in order. */
  lemma {:induction false} SelectedConfigsAll(cs: seq<KeyConfig>)
    requires forall i :: 0 <= i < |cs| ==> cs[i].isSelected
    ensures SelectedConfigs(cs) == cs
  {
    if cs != [] {
      var n := |cs| - 1;
      var init := cs[..n];
      assert init + [cs[n]] == cs;
      SelectedConfigsSnoc(init, cs[n]);
      assert forall i :: 0 <= i < n ==> init[i].isSelected;
      SelectedConfigsAll(init);
    }
  }

  /** `config.columnName || config.jsonKey`: a blank column name falls back to the key. */
  function DisplayName(c: KeyConfig): (r: string)
    ensures c.columnName != "" ==> r == c.columnName
    ensures c.columnName == "" ==> r == c.jsonKey
  {
    if c.columnName == "" then c.jsonKey else c.columnName
  }

  function DisplayNames(cs: seq<KeyConfig>): (r: seq<string>)
    ensures |r| == |cs|
    ensures forall i :: 0 <= i < |cs| ==> r[i] == DisplayName(cs[i])
  {
    if cs == [] then [] else [DisplayName(cs[0])] + DisplayNames(cs[1..])
  }

  /** Position of the first selected entry for `key`. */
  function FindSelectedIndex(cs: seq<KeyConfig>, key: string): (r: Option<nat>)
    ensures r.None? <==> forall i :: 0 <= i < |cs| ==> !(cs[i].jsonKey == key && cs[i].isSelected)
    ensures r.Some? ==> r.value < |cs| && cs[r.value].jsonKey == key && cs[r.value].isSelected &&
                        forall j :: 0 <= j < r.value ==> !(cs[j].jsonKey == key && cs[j].isSelected)
  {
    if cs == [] then None
    else if cs[0].jsonKey == key && cs[0].isSelected then Some(0)
    else
      assert forall j :: 1 <= j < |cs| ==> cs[j] == cs[1..][j - 1];
      match FindSelectedIndex(cs[1..], key)
      case Some(i) => Some(i + 1)
      case None => None
  }

  /** `customKeyConfigs.find(c => c.jsonKey === key && c.isSelected)`. */
  function FindSelected(cs: seq<KeyConfig>, key: string): (r: Option<KeyConfig>)
    ensures r.None? <==> forall i :: 0 <= i < |cs| ==> !(cs[i].jsonKey == key && cs[i].isSelected)
    ensures r.Some? ==> exists i :: 0 <= i < |cs| && cs[i] == r.value && r.value.jsonKey == key &&
                                    r.value.isSelected &&
                                    (forall j :: 0 <= j < i ==> !(cs[j].jsonKey == key && cs[j].isSelected))
  {
    match FindSelectedIndex(cs, key)
    case Some(i) => Some(cs[i])
    case None => None
  }

  /** The columns to export: the keys read and the header names. */
  datatype Columns = Columns(keys: seq<string>, names: seq<string>)

  /** In custom mode the selected entries, in list order, with their display names; otherwise
      every key found in the data, under its own name. */
  function ChooseColumns(dynamicKeys: seq<string>, cs: seq<KeyConfig>, useCustomKeys: bool): (r: Columns)
    ensures |r.keys| == |r.names|
    ensures useCustomKeys ==> |r.keys| == |SelectedConfigs(cs)|
    ensures useCustomKeys ==> forall i :: 0 <= i < |r.keys| ==>
      r.keys[i] == SelectedConfigs(cs)[i].jsonKey && r.names[i] == DisplayName(SelectedConfigs(cs)[i])
    ensures !useCustomKeys ==> r.keys == dynamicKeys && r.names == dynamicKeys
  {
    if useCustomKeys then
      var selected := SelectedConfigs(cs);
      Columns(JsonKeys(selected), DisplayNames(selected))
    else Columns(dynamicKeys, dynamicKeys)
  }

  /** The default passed to `escapeCsvField`: that of the first selected entry for the key
      in custom mode, none otherwise. */
  function DefaultFor(cs: seq<KeyConfig>, useCustomKeys: bool, key: string): Option<string>
  {
    if !useCustomKeys then None
    else match FindSelected(cs, key)
      case Some(c) => Some(c.defaultValue)
      case None => None
  }

  /** In custom mode every chosen column has a selected entry, so a default is always in play. */
  lemma CustomColumnsHaveDefaults(dynamicKeys: seq<string>, cs: seq<KeyConfig>, key: string)
    requires key in ChooseColumns(dynamicKeys, cs, true).keys
    ensures FindSelected(cs, key).Some? && DefaultFor(cs, true, key).Some?
  {
    var keys := ChooseColumns(dynamicKeys, cs, true).keys;
    var i :| 0 <= i < |keys| && keys[i] == key;
    var c := SelectedConfigs(cs)[i];
    assert c in SelectedConfigs(cs);
    var k :| 0 <= k < |cs| && cs[k] == c;
  }

  /** A missing or null cell renders empty outside custom mode; in custom mode it renders as
      the quoted default of the column's first selected entry, `""` when that is blank. */
  lemma MissingCell(dynamicKeys: seq<string>, cs: seq<KeyConfig>, useCustomKeys: bool,
                    item: JsonValue, key: string, numberText: NumberText)
    requires key in ChooseColumns(dynamicKeys, cs, useCustomKeys).keys
    requires Lookup(item, key).None? || Lookup(item, key).value.JNull?
    ensures var e := EscapeCsvField(Lookup(item, key), DefaultFor(cs, useCustomKeys, key), numberText);
      (!useCustomKeys ==> e == Some("")) &&
      (useCustomKeys ==> FindSelected(cs, key).Some? && e == Some(Quote(FindSelected(cs, key).value.defaultValue)))
  {
    if useCustomKeys { CustomColumnsHaveDefaults(dynamicKeys, cs, key); }
  }

  // ---------------------------------------------------------------------------------------
  // Rows and the whole text
  // ---------------------------------------------------------------------------------------

  /** The values of a list of computations that may throw, or `None` as soon as one throws. */
  function AllSome<T>(xs: seq<Option<T>>): (r: Option<seq<T>>)
    ensures r.Some? <==> forall i :: 0 <= i < |xs| ==> xs[i].Some?
    ensures r.Some? ==> |r.value| == |xs| && forall i :: 0 <= i < |xs| ==> xs[i] == Some(r.value[i])
  {
    if xs == [] then Some([])
    else
      var rest := AllSome(xs[1..]);
      assert forall i :: 1 <= i < |xs| ==> xs[i] == xs[1..][i - 1];
      if xs[0].Some? && rest.Some? then Some([xs[0].value] + rest.value) else None
  }

  /** The escaped fields of one record, one per chosen key; `None` if a value cannot be
      converted to a string. */
  function EscapeRow(item: JsonValue, keys: seq<string>, cs: seq<KeyConfig>, useCustomKeys: bool,
                     numberText: NumberText): (r: Option<seq<string>>)
    ensures r.Some? <==> forall j :: 0 <= j < |keys| ==>
      EscapeCsvField(Lookup(item, keys[j]), DefaultFor(cs, useCustomKeys, keys[j]), numberText).Some?
    ensures r.Some? ==> |r.value| == |keys| && forall j :: 0 <= j < |keys| ==>
      Some(r.value[j]) == EscapeCsvField(Lookup(item, keys[j]), DefaultFor(cs, useCustomKeys, keys[j]), numberText)
  {
    var cells := seq(|keys|, j requires 0 <= j < |keys| =>
      EscapeCsvField(Lookup(item, keys[j]), DefaultFor(cs, useCustomKeys, keys[j]), numberText));
    assert forall j :: 0 <= j < |keys| ==>
      cells[j] == EscapeCsvField(Lookup(item, keys[j]), DefaultFor(cs, useCustomKeys, keys[j]), numberText);
    AllSome(cells)
  }

  /** The texts of one record's cells, one per chosen key. */
  function TextRow(item: JsonValue, keys: seq<string>, cs: seq<KeyConfig>, useCustomKeys: bool,
                   numberText: NumberText): (r: Option<seq<string>>)
    ensures r.Some? <==> forall j :: 0 <= j < |keys| ==>
      CellText(Lookup(item, keys[j]), DefaultFor(cs, useCustomKeys, keys[j]), numberText).Some?
    ensures r.Some? ==> |r.value| == |keys| && forall j :: 0 <= j < |keys| ==>
      Some(r.value[j]) == CellText(Lookup(item, keys[j]), DefaultFor(cs, useCustomKeys, keys[j]), numberText)
  {
    var cells := seq(|keys|, j requires 0 <= j < |keys| =>
      CellText(Lookup(item, keys[j]), DefaultFor(cs, useCustomKeys, keys[j]), numberText));
    assert forall j :: 0 <= j < |keys| ==>
      cells[j] == CellText(Lookup(item, keys[j]), DefaultFor(cs, useCustomKeys, keys[j]), numberText);
    AllSome(cells)
  }

  /** `mergedJson.map(item => keysToUse.map(…))`, before the fields are joined. */
  function EscapeTable(items: seq<JsonValue>, keys: seq<string>, cs: seq<KeyConfig>, useCustomKeys: bool,
                       numberText: NumberText): (r: Option<seq<seq<string>>>)
    ensures r.Some? <==> forall i :: 0 <= i < |items| ==> EscapeRow(items[i], keys, cs, useCustomKeys, numberText).Some?
    ensures r.Some? ==> |r.value| == |items| && forall i :: 0 <= i < |items| ==>
      Some(r.value[i]) == EscapeRow(items[i], keys, cs, useCustomKeys, numberText)
  {
    var rows := seq(|items|, i requires 0 <= i < |items| => EscapeRow(items[i], keys, cs, useCustomKeys, numberText));
    assert forall i :: 0 <= i < |items| ==> rows[i] == EscapeRow(items[i], keys, cs, useCustomKeys, numberText);
    AllSome(rows)
  }

  /** The cell texts of every record. */
  function TextTable(items: seq<JsonValue>, keys: seq<string>, cs: seq<KeyConfig>, useCustomKeys: bool,
                     numberText: NumberText): (r: Option<seq<seq<string>>>)
    ensures r.Some? <==> forall i :: 0 <= i < |items| ==> TextRow(items[i], keys, cs, useCustomKeys, numberText).Some?
    ensures r.Some? ==> |r.value| == |items| && forall i :: 0 <= i < |items| ==>
      Some(r.value[i]) == TextRow(items[i], keys, cs, useCustomKeys, numberText)
  {
    var rows := seq(|items|, i requires 0 <= i < |items| => TextRow(items[i], keys, cs, useCustomKeys, numberText));
    assert forall i :: 0 <= i < |items| ==> rows[i] == TextRow(items[i], keys, cs, useCustomKeys, numberText);
    AllSome(rows)
  }

  lemma RowEncodes(item: JsonValue, keys: seq<string>, cs: seq<KeyConfig>, useCustomKeys: bool,
                   numberText: NumberText)
    ensures EscapeRow(item, keys, cs, useCustomKeys, numberText).Some? <==>
            TextRow(item, keys, cs, useCustomKeys, numberText).Some?
    ensures EscapeRow(item, keys, cs, useCustomKeys, numberText).Some? ==>
      var e, x := EscapeRow(item, keys, cs, useCustomKeys, numberText).value,
                  TextRow(item, keys, cs, useCustomKeys, numberText).value;
      forall j :: 0 <= j < |keys| ==> Encodes(e[j], x[j])
  {
    forall j | 0 <= j < |keys| {
      EscapeEncodes(Lookup(item, keys[j]), DefaultFor(cs, useCustomKeys, keys[j]), numberText);
    }
  }

  lemma TableEncodes(items: seq<JsonValue>, keys: seq<string>, cs: seq<KeyConfig>, useCustomKeys: bool,
                     numberText: NumberText)
    requires |keys| >= 1
    ensures EscapeTable(items, keys, cs, useCustomKeys, numberText).Some? <==>
            TextTable(items, keys, cs, useCustomKeys, numberText).Some?
    ensures EscapeTable(items, keys, cs, useCustomKeys, numberText).Some? ==>
      EncodedTable(EscapeTable(items, keys, cs, useCustomKeys, numberText).value,
                   TextTable(items, keys, cs, useCustomKeys, numberText).value)
  {
    forall i | 0 <= i < |items| {
      RowEncodes(items[i], keys, cs, useCustomKeys, numberText);
    }
  }

  /** Why an export produced nothing. */
  datatype ExportError =
    | NoData            // no records loaded
    | NoKeysSelected    // custom mode with every entry deselected
    | NoKeysAvailable   // raw mode with no keys found
    | Unprintable       // `String(value)` threw for some cell

  /** The text `handleConvertToCsv` puts in the downloaded file, or why there is none. */
  function ConvertToCsv(mergedJson: seq<JsonValue>, dynamicKeys: seq<string>, cs: seq<KeyConfig>,
                        useCustomKeys: bool, numberText: NumberText): (r: Result<string, ExportError>)
  {
    if |mergedJson| == 0 then Err(NoData)
    else if useCustomKeys && |SelectedConfigs(cs)| == 0 then Err(NoKeysSelected)
    else if !useCustomKeys && |dynamicKeys| == 0 then Err(NoKeysAvailable)
    else
      var cols := ChooseColumns(dynamicKeys, cs, useCustomKeys);
      var header := JoinWith(',', cols.names);
      match EscapeTable(mergedJson, cols.keys, cs, useCustomKeys, numberText)
      case None => Err(Unprintable)
      case Some(rows) => Ok(JoinWith('\n', [header] + JoinRows(rows)))
  }

  /** Nothing is selected exactly when no entry has its flag set. */
  lemma NoneSelected(cs: seq<KeyConfig>)
    ensures |SelectedConfigs(cs)| == 0 <==> forall i :: 0 <= i < |cs| ==> !cs[i].isSelected
  {
    var selected := SelectedConfigs(cs);
    if exists i :: 0 <= i < |cs| && cs[i].isSelected {
      var i :| 0 <= i < |cs| && cs[i].isSelected;
      assert cs[i] in selected;
    }
  }

  /** With at least one column, the rows fail to render exactly when some cell text fails. */
  lemma RowsFail(mergedJson: seq<JsonValue>, dynamicKeys: seq<string>, cs: seq<KeyConfig>,
                 useCustomKeys: bool, numberText: NumberText)
    requires |ChooseColumns(dynamicKeys, cs, useCustomKeys).keys| >= 1
    ensures var keys := ChooseColumns(dynamicKeys, cs, useCustomKeys).keys;
      EscapeTable(mergedJson, keys, cs, useCustomKeys, numberText).None? <==>
      TextTable(mergedJson, keys, cs, useCustomKeys, numberText).None?
  {
    TableEncodes(mergedJson, ChooseColumns(dynamicKeys, cs, useCustomKeys).keys, cs, useCustomKeys, numberText);
  }

  /** The export fails exactly in the four cases, checked in this order. */
  lemma ConvertErrors(mergedJson: seq<JsonValue>, dynamicKeys: seq<string>, cs: seq<KeyConfig>,
                      useCustomKeys: bool, numberText: NumberText)
    ensures var r := ConvertToCsv(mergedJson, dynamicKeys, cs, useCustomKeys, numberText);
      (r == Err(NoData) <==> |mergedJson| == 0) &&
      (r == Err(NoKeysSelected) <==> |mergedJson| > 0 && useCustomKeys &&
                                     forall i :: 0 <= i < |cs| ==> !cs[i].isSelected) &&
      (r == Err(NoKeysAvailable) <==> |mergedJson| > 0 && !useCustomKeys && dynamicKeys == []) &&
      (r.Ok? <==> |mergedJson| > 0 &&
                  (if useCustomKeys then exists i :: 0 <= i < |cs| && cs[i].isSelected else dynamicKeys != []) &&
                  TextTable(mergedJson, ChooseColumns(dynamicKeys, cs, useCustomKeys).keys, cs, useCustomKeys,
                            numberText).Some?)
  {
    NoneSelected(cs);
    if |ChooseColumns(dynamicKeys, cs, useCustomKeys).keys| >= 1 {
      RowsFail(mergedJson, dynamicKeys, cs, useCustomKeys, numberText);
    }
  }

  /** A successful export is the raw header line, a line feed, and then one line per record
      that reads back, field by field, as the texts of that record's chosen cells. */
  lemma ConvertRoundTrip(mergedJson: seq<JsonValue>, dynamicKeys: seq<string>, cs: seq<KeyConfig>,
                         useCustomKeys: bool, numberText: NumberText)
    requires ConvertToCsv(mergedJson, dynamicKeys, cs, useCustomKeys, numberText).Ok?
    ensures var csv := ConvertToCsv(mergedJson, dynamicKeys, cs, useCustomKeys, numberText).value;
      var cols := ChooseColumns(dynamicKeys, cs, useCustomKeys);
      var header := JoinWith(',', cols.names);
      var texts := TextTable(mergedJson, cols.keys, cs, useCustomKeys, numberText);
      |csv| > |header| && csv[..|header| + 1] == header + "\n" &&
      texts.Some? && |texts.value| == |mergedJson| &&
      (forall i :: 0 <= i < |mergedJson| ==> |texts.value[i]| == |cols.keys|) &&
      ParseLines(csv[|header| + 1..]) == texts.value
  {
    var cols := ChooseColumns(dynamicKeys, cs, useCustomKeys);
    var header := JoinWith(',', cols.names);
    if useCustomKeys { assert |cols.keys| == |SelectedConfigs(cs)| >= 1; }
    TableEncodes(mergedJson, cols.keys, cs, useCustomKeys, numberText);
    var rows := EscapeTable(mergedJson, cols.keys, cs, useCustomKeys, numberText).value;
    var texts := TextTable(mergedJson, cols.keys, cs, useCustomKeys, numberText).value;
    var lines := JoinRows(rows);
    var body := JoinWith('\n', lines);
    var csv := JoinWith('\n', [header] + lines);
    assert ([header] + lines)[1..] == lines;
    assert csv == header + "\n" + body;
    assert csv[|header| + 1..] == body;
    assert csv[..|header| + 1] == header + "\n";
    ParseLinesJoined(rows, texts);
  }
}
