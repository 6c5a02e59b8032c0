/** `jsonFromDelimFile`: the text of a delimited file turned into one object
    per data line, keyed by the names on the header line.

    The file's text is taken as an argument (the reading of the file and its
    encoding are not modelled). A delimiter argument that is the empty string
    stands for one that is absent or falsy, which falls back to its default. */
module DelimFile {
  import opened Outcomes
  import opened JsStrings
  import opened JsValues
  import opened Util

  /** `d || fallback` for a delimiter given as a string. */
  function OrDefault(d: string, fallback: string): (r: string)
    requires fallback != []
    ensures r != []
  {
    if d == [] then fallback else d
  }

  // ---------------------------------------------------------------------
  // The header line

  /** `key_list.filter(key => !isEmpty(key) && key != '\r')`. */
  function KeepKeys(parts: seq<string>): (r: seq<string>)
    ensures forall k :: k in r <==> k in parts && !IsEmpty(Str(k)) && k != "\r"
  {
    if parts == [] then []
    else
      var rest := KeepKeys(parts[1..]);
      assert forall k :: k in parts <==> k == parts[0] || k in parts[1..];
      if !IsEmpty(Str(parts[0])) && parts[0] != "\r" then [parts[0]] + rest else rest
  }

  /** The filter keeps the order and the repetitions of the kept keys: it
      distributes over concatenation. */
  lemma {:induction false} KeepKeysAppend(a: seq<string>, b: seq<string>)
    ensures KeepKeys(a + b) == KeepKeys(a) + KeepKeys(b)
  {
    if a == [] {
      assert a + b == b;
    } else {
      assert (a + b)[0] == a[0];
      assert (a + b)[1..] == a[1..] + b;
      KeepKeysAppend(a[1..], b);
    }
  }

  /** `key.toLowerCase().trim()`. */
  function NormalizeKey(k: string): string {
    Trim(Lower(k))
  }

  /** `key_list[ix].toLowerCase().trim()` for every key. */
  function NormalizeKeys(ks: seq<string>): (r: seq<string>)
    ensures |r| == |ks|
  {
    seq(|ks|, i requires 0 <= i < |ks| => NormalizeKey(ks[i]))
  }

  /** The keys read from the header line. */
  function HeaderKeys(header: string, fieldDelim: string): seq<string>
    requires fieldDelim != []
  {
    NormalizeKeys(KeepKeys(SplitOn(header, fieldDelim)))
  }

  /** Every key is a lower-cased, trimmed, non-blank name taken from a
      field of the header line. */
  lemma HeaderKeysShape(header: string, fieldDelim: string, k: string)
    requires fieldDelim != [] && k in HeaderKeys(header, fieldDelim)
    ensures k != [] && Lower(k) == k && Trim(k) == k
    ensures exists part :: part in SplitOn(header, fieldDelim) && k == Trim(Lower(part))
  {
    var kept := KeepKeys(SplitOn(header, fieldDelim));
    var i :| 0 <= i < |kept| && HeaderKeys(header, fieldDelim)[i] == k;
    var part := kept[i];
    assert part in kept;
    TrimLowerIsLower(part);
    TrimIdempotent(Lower(part));
    assert Trim(part) != [];
    LowerTrimCommute(part);
    assert |Lower(Trim(part))| == |Trim(part)|;
  }

  // ---------------------------------------------------------------------
  // One data line

  /** `value_list[i]`, checked: a missing, blank, `'\r'`, `'null'` or
      `'NULL'` field is `null`, any other is trimmed. */
  function Cell(values: seq<string>, i: nat): JsValue {
    var value := if i < |values| then Str(values[i]) else Undefined;
    if !IsEmpty(value) && value != Str("\r") && value != Str("null") && value != Str("NULL") then Str(Trim(value.s))
    else Null
  }

  /** `key_list.indexOf(key)`: the first position of `key`. */
  function IndexOf(ks: seq<string>, k: string): (r: nat)
    requires k in ks
    ensures r < |ks| && ks[r] == k && forall j :: 0 <= j < r ==> ks[j] != k
  {
    if ks[0] == k then 0
    else
      var r := IndexOf(ks[1..], k);
      assert ks[r + 1] == ks[1..][r];
      assert forall j :: 1 <= j <= r ==> ks[j] == ks[1..][j - 1];
      r + 1
  }

  /** The checked fields of a data line, by position. */
  function CellOf(values: seq<string>): nat -> JsValue {
    (i: nat) => Cell(values, i)
  }

  /** The object after the first `n` keys were written into `result`, each
      with the field `cell` gives at the key's first position. */
  function RecordOf(keys: seq<string>, cell: nat -> JsValue, n: nat): Props
    requires n <= |keys|
  {
    if n == 0 then []
    else Set(RecordOf(keys, cell, n - 1), keys[n - 1], cell(IndexOf(keys, keys[n - 1])))
  }

  /** The object built for one data line. */
  function Record(keys: seq<string>, values: seq<string>): Props {
    RecordOf(keys, CellOf(values), |keys|)
  }

  lemma {:induction false} RecordOfGet(keys: seq<string>, cell: nat -> JsValue, n: nat, k: string)
    requires n <= |keys|
    ensures Has(RecordOf(keys, cell, n), k) <==> k in keys[..n]
    ensures k in keys[..n] ==> Get(RecordOf(keys, cell, n), k) == cell(IndexOf(keys, k))
  {
    if n > 0 {
      var prev := RecordOf(keys, cell, n - 1);
      RecordOfGet(keys, cell, n - 1, k);
      SetHas(prev, keys[n - 1], cell(IndexOf(keys, keys[n - 1])), k);
      SetGet(prev, keys[n - 1], cell(IndexOf(keys, keys[n - 1])), k);
      assert keys[..n][..n - 1] == keys[..n - 1];
      InSnoc(keys[..n], k);
    }
  }

  /** The object has exactly the header's keys, each holding the checked
      field at the key's first position on the header line. */
  lemma RecordGet(keys: seq<string>, values: seq<string>, k: string)
    ensures Has(Record(keys, values), k) <==> k in keys
    ensures k in keys ==> Get(Record(keys, values), k) == Cell(values, IndexOf(keys, k))
  {
    assert keys[..|keys|] == keys;
    RecordOfGet(keys, CellOf(values), |keys|, k);
  }

  lemma {:induction false} RecordOfDistinct(keys: seq<string>, cell: nat -> JsValue, n: nat)
    requires n <= |keys|
    ensures DistinctKeys(RecordOf(keys, cell, n))
  {
    if n > 0 {
      RecordOfDistinct(keys, cell, n - 1);
      SetDistinct(RecordOf(keys, cell, n - 1), keys[n - 1], cell(IndexOf(keys, keys[n - 1])));
    }
  }

  /** A field is `null` or a trimmed, non-empty string. */
  lemma CellShape(values: seq<string>, i: nat)
    ensures Cell(values, i) == Null || (Cell(values, i).Str? && Cell(values, i).s != [] && Trim(Cell(values, i).s) == Cell(values, i).s)
  {
    if i < |values| {
      TrimIdempotent(values[i]);
    }
  }

  /** A record is empty, and dropped, exactly when the header has no keys. */
  lemma RecordEmpty(keys: seq<string>, values: seq<string>)
    ensures IsEmpty(Obj(Record(keys, values))) <==> keys == []
  {
    if keys != [] {
      RecordGet(keys, values, keys[0]);
    }
  }

  // ---------------------------------------------------------------------
  // The whole file, as the code is meant to work

  /** A data line has content once its delimiters are taken out. */
  predicate HasContent(line: string, fieldDelim: string)
    requires fieldDelim != []
  {
    !IsEmpty(Str(ReplaceAll(line, fieldDelim, [])))
  }

  /** A line has content exactly when one of its fields is not blank. */
  lemma HasContentIffField(line: string, fieldDelim: string)
    requires fieldDelim != []
    ensures HasContent(line, fieldDelim)
            <==> exists i :: 0 <= i < |SplitOn(line, fieldDelim)| && !AllSpace(SplitOn(line, fieldDelim)[i])
  {
    ReplaceAllSplitOn(line, fieldDelim);
    AllSpaceConcat(SplitOn(line, fieldDelim));
    TrimEmptyIffBlank(ReplaceAll(line, fieldDelim, []));
  }

  /** The split fields of the lines that have content, in order. */
  function ContentLines(lines: seq<string>, fieldDelim: string): seq<seq<string>>
    requires fieldDelim != []
  {
    if lines == [] then []
    else
      var prev := ContentLines(lines[..|lines| - 1], fieldDelim);
      var line := lines[|lines| - 1];
      if HasContent(line, fieldDelim) then prev + [SplitOn(line, fieldDelim)] else prev
  }

  /** The records of the split lines, each kept unless it is empty. */
  function Rows(keys: seq<string>, lines: seq<seq<string>>): seq<Props> {
    if lines == [] then []
    else
      var prev := Rows(keys, lines[..|lines| - 1]);
      var result := Record(keys, lines[|lines| - 1]);
      if !IsEmpty(Obj(result)) then prev + [result] else prev
  }

  /** Without keys nothing is returned. */
  lemma {:induction false} RowsNoKeys(lines: seq<seq<string>>)
    ensures Rows([], lines) == []
    decreases |lines|
  {
    if lines != [] {
      RowsNoKeys(lines[..|lines| - 1]);
      RecordEmpty([], lines[|lines| - 1]);
    }
  }

  /** With keys, every split line gives its record, in order. */
  lemma {:induction false} RowsAll(keys: seq<string>, lines: seq<seq<string>>)
    requires keys != []
    ensures |Rows(keys, lines)| == |lines|
    ensures forall i :: 0 <= i < |lines| ==> Rows(keys, lines)[i] == Record(keys, lines[i])
    decreases |lines|
  {
    if lines != [] {
      var n := |lines| - 1;
      var init := lines[..n];
      RowsAll(keys, init);
      RecordEmpty(keys, lines[n]);
      assert Rows(keys, lines) == Rows(keys, init) + [Record(keys, lines[n])];
      forall i | 0 <= i < |lines| ensures Rows(keys, lines)[i] == Record(keys, lines[i]) {
        if i < n {
          assert init[i] == lines[i];
        }
      }
    }
  }

  /** A line has content in the sense of `HasContent` exactly when it
      belongs to `ContentLines`: the count of the lines kept. */
  lemma {:induction false} ContentLinesKeep(lines: seq<string>, fieldDelim: string, line: string)
    requires fieldDelim != []
    ensures (line in lines && HasContent(line, fieldDelim)) ==> SplitOn(line, fieldDelim) in ContentLines(lines, fieldDelim)
    ensures forall fs :: fs in ContentLines(lines, fieldDelim)
              ==> exists l :: l in lines && HasContent(l, fieldDelim) && fs == SplitOn(l, fieldDelim)
    decreases |lines|
  {
    if lines != [] {
      var init := lines[..|lines| - 1];
      ContentLinesKeep(init, fieldDelim, line);
      assert lines == init + [lines[|lines| - 1]];
      assert forall l :: l in init ==> l in lines;
    }
  }

  /** `jsonFromDelimFile(filename, file_type, field_delim, line_delim)` with
      data lines kept when they have content. */
  function JsonFromDelim(raw: string, fieldDelim: string, lineDelim: string): seq<Props> {
    var fd := OrDefault(fieldDelim, ",");
    var lines := SplitOn(raw, OrDefault(lineDelim, "\n"));
    Rows(HeaderKeys(lines[0], fd), ContentLines(lines[1..], fd))
  }

  /** Every record has exactly the header's keys; a data line whose fields
      are all blank gives no record, and any other line gives one. */
  lemma JsonFromDelimMeaning(raw: string, fieldDelim: string, lineDelim: string)
    ensures var fd := OrDefault(fieldDelim, ",");
            var lines := SplitOn(raw, OrDefault(lineDelim, "\n"));
            var keys := HeaderKeys(lines[0], fd);
            var out := JsonFromDelim(raw, fieldDelim, lineDelim);
            (keys == [] ==> out == [])
            && (keys != [] ==> |out| == |ContentLines(lines[1..], fd)|
                               && forall i :: 0 <= i < |out| ==> out[i] == Record(keys, ContentLines(lines[1..], fd)[i]))
  {
    var fd := OrDefault(fieldDelim, ",");
    var lines := SplitOn(raw, OrDefault(lineDelim, "\n"));
    if HeaderKeys(lines[0], fd) == [] {
      RowsNoKeys(ContentLines(lines[1..], fd));
    } else {
      RowsAll(HeaderKeys(lines[0], fd), ContentLines(lines[1..], fd));
    }
  }

  lemma ContentLinesPrefixStep(lines: seq<string>, fieldDelim: string, i: nat)
    requires fieldDelim != [] && i < |lines|
    ensures ContentLines(lines[..i + 1], fieldDelim)
            == if HasContent(lines[i], fieldDelim) then ContentLines(lines[..i], fieldDelim) + [SplitOn(lines[i], fieldDelim)]
               else ContentLines(lines[..i], fieldDelim)
  {
    assert lines[..i + 1][..i] == lines[..i];
  }

  lemma RowsPrefixStep(keys: seq<string>, lines: seq<seq<string>>, i: nat)
    requires i < |lines|
    ensures Rows(keys, lines[..i + 1])
            == if !IsEmpty(Obj(Record(keys, lines[i]))) then Rows(keys, lines[..i]) + [Record(keys, lines[i])]
               else Rows(keys, lines[..i])
  {
    assert lines[..i + 1][..i] == lines[..i];
  }

  /** The `for (ix …)` loop over `key_list`: each key is lower-cased and
      trimmed in place. */
  method NormalizeInPlace(keyList: array<string>)
    modifies keyList
    ensures keyList[..] == NormalizeKeys(old(keyList[..]))
  {
    ghost var orig := keyList[..];
    ghost var target := NormalizeKeys(orig);
    for ix := 0 to keyList.Length
      invariant forall j :: 0 <= j < ix ==> keyList[j] == target[j]
      invariant forall j :: ix <= j < keyList.Length ==> keyList[j] == orig[j]
    {
      keyList[ix] := NormalizeKey(keyList[ix]);
    }
    assert keyList[..] == target;
  }

  /** The object for one split line: `result[key]` is written for each key
      in turn. */
  method BuildRecord(keys: seq<string>, valueList: seq<string>) returns (result: Props)
    ensures result == Record(keys, valueList)
  {
    result := [];
    for j := 0 to |keys|
      invariant result == RecordOf(keys, CellOf(valueList), j)
    {
      var key := keys[j];
      var value := Cell(valueList, IndexOf(keys, key));
      result := Set(result, key, value);
    }
  }


  /** `jsonFromDelimFile`, with its loops: the keys are normalised in place,
      the data lines with content are split, and each split line is turned
      into an object key by key. */
  method JsonFromDelimFile(raw: string, fieldDelim: string, lineDelim: string) returns (records: seq<Props>)
    ensures records == JsonFromDelim(raw, fieldDelim, lineDelim)
  {
    var fd := OrDefault(fieldDelim, ",");
    var ld := OrDefault(lineDelim, "\n");
    var lineList := SplitOn(raw, ld);
    var kept := KeepKeys(SplitOn(lineList[0], fd));
    var keyList := new string[|kept|](i requires 0 <= i < |kept| => kept[i]);
    assert keyList[..] == kept;
    NormalizeInPlace(keyList);
    var keys := keyList[..];
    var dataLines := lineList[1..];

    var splitLines: seq<seq<string>> := [];
    for i := 0 to |dataLines|
      invariant splitLines == ContentLines(dataLines[..i], fd)
    {
      ContentLinesPrefixStep(dataLines, fd, i);
      if HasContent(dataLines[i], fd) {
        splitLines := splitLines + [SplitOn(dataLines[i], fd)];
      }
    }
    assert dataLines[..|dataLines|] == dataLines;

    records := [];
    for i := 0 to |splitLines|
      invariant records == Rows(keys, splitLines[..i])
    {
      var result := BuildRecord(keys, splitLines[i]);
      RowsPrefixStep(keys, splitLines, i);
      if !IsEmpty(Obj(result)) {
        records := records + [result];
      }
    }
    assert splitLines[..|splitLines|] == splitLines;
  }

  // ---------------------------------------------------------------------
  // The whole file, as the code is written

  /** A character that `new RegExp(d)` does not read as itself. */
  predicate RegexSpecial(c: char) {
    c in "^$\\.*+?()[]{}|"
  }

  /** The delimiters whose regular expression is modelled: any single
      character, or a text without special characters. */
  predicate DelimiterModelled(d: string) {
    |d| == 1 || forall i :: 0 <= i < |d| ==> !RegexSpecial(d[i])
  }

  /** What `new RegExp(d, 'g')` matches. */
  datatype Pattern =
    | Literal(text: string)   // the text itself
    | EmptyMatch              // the empty string only: `|`, `^`, `$`
    | AnyChar                 // any character but a line terminator: `.`
    | Invalid                 // the constructor throws: `*`, `+`, `?`, `(`, `)`, `[`, `\`

  function PatternOf(d: string): (p: Pattern)
    requires d != [] && DelimiterModelled(d)
    ensures p.Literal? ==> p.text == d && p.text != []
  {
    if |d| == 1 && d[0] in "*+?()[\\" then Invalid
    else if |d| == 1 && d[0] in "|^$" then EmptyMatch
    else if d == "." then AnyChar
    else Literal(d)
  }

  /** The characters of `s` that are line terminators, in order. */
  function LineTerminators(s: string): string {
    if s == [] then []
    else (if IsLineTerminator(s[0]) then [s[0]] else []) + LineTerminators(s[1..])
  }

  /** `line.replace(regex, '')`. */
  function RemoveMatches(line: string, p: Pattern): string
    requires !p.Invalid? && (p.Literal? ==> p.text != [])
  {
    match p
    case Literal(t) => ReplaceAll(line, t, [])
    case EmptyMatch => line
    case AnyChar => LineTerminators(line)
  }

  /** The lines the code keeps: those with nothing left once the matches of
      the delimiter's regular expression are taken out. */
  function BlankLines(lines: seq<string>, fieldDelim: string, p: Pattern): seq<seq<string>>
    requires fieldDelim != [] && !p.Invalid? && (p.Literal? ==> p.text != [])
  {
    if lines == [] then []
    else
      var prev := BlankLines(lines[..|lines| - 1], fieldDelim, p);
      var line := lines[|lines| - 1];
      if IsEmpty(Str(RemoveMatches(line, p))) then prev + [SplitOn(line, fieldDelim)] else prev
  }

  /** `jsonFromDelimFile` as written: it throws when the field delimiter is
      not a valid regular expression, and keeps the data lines that are
      blank once the delimiter's matches are removed. */
  function JsonFromDelimAsWritten(raw: string, fieldDelim: string, lineDelim: string): Answer<seq<Props>>
    requires DelimiterModelled(OrDefault(fieldDelim, ","))
  {
    var fd := OrDefault(fieldDelim, ",");
    var lines := SplitOn(raw, OrDefault(lineDelim, "\n"));
    var keys := HeaderKeys(lines[0], fd);
    var p := PatternOf(fd);
    if p.Invalid? then Throws("SyntaxError: Invalid regular expression: /" + fd + "/")
    else Ok(Rows(keys, BlankLines(lines[1..], fd, p)))
  }

  lemma {:induction false} BlankLinesAllBlank(lines: seq<string>, fieldDelim: string, fs: seq<string>)
    requires fieldDelim != [] && fs in BlankLines(lines, fieldDelim, Literal(fieldDelim))
    ensures forall i :: 0 <= i < |fs| ==> AllSpace(fs[i])
    decreases |lines|
  {
    var init := lines[..|lines| - 1];
    var line := lines[|lines| - 1];
    var prev := BlankLines(init, fieldDelim, Literal(fieldDelim));
    if fs in prev {
      BlankLinesAllBlank(init, fieldDelim, fs);
    } else {
      assert fs == SplitOn(line, fieldDelim) && !HasContent(line, fieldDelim);
      LineWithoutContent(line, fieldDelim);
    }
  }

  /** A line without content has only blank fields. */
  lemma LineWithoutContent(line: string, fieldDelim: string)
    requires fieldDelim != [] && !HasContent(line, fieldDelim)
    ensures forall i :: 0 <= i < |SplitOn(line, fieldDelim)| ==> AllSpace(SplitOn(line, fieldDelim)[i])
  {
    HasContentIffField(line, fieldDelim);
  }

  /** With a delimiter read as literal text, every object the code as written returns
      holds `null` under every key: the lines with data are the ones it
      drops. */
  lemma AsWrittenOnlyNulls(raw: string, fieldDelim: string, lineDelim: string, n: nat, k: string)
    requires var fd := OrDefault(fieldDelim, ","); DelimiterModelled(fd) && PatternOf(fd).Literal?
    requires var out := JsonFromDelimAsWritten(raw, fieldDelim, lineDelim); out.Ok? && n < |out.value|
    ensures Get(JsonFromDelimAsWritten(raw, fieldDelim, lineDelim).value[n], k) in {Null, Undefined}
  {
    var fd := OrDefault(fieldDelim, ",");
    var lines := SplitOn(raw, OrDefault(lineDelim, "\n"));
    var keys := HeaderKeys(lines[0], fd);
    var blank := BlankLines(lines[1..], fd, Literal(fd));
    if keys == [] {
      RowsNoKeys(blank);
    }
    RowsAll(keys, blank);
    var fs := blank[n];
    BlankLinesAllBlank(lines[1..], fd, fs);
    RecordGet(keys, fs, k);
    if k in keys {
      var i := IndexOf(keys, k);
      if i < |fs| {
        TrimEmptyIffBlank(fs[i]);
      }
    }
  }

  /** A one-column file: a header naming the column `[k]` and one data
      line holding the digit `[d]`. */
  lemma OneColumnLines(k: char, d: char)
    requires 'a' <= k <= 'z' && '0' <= d <= '9'
    ensures SplitOn([k] + "\n" + [d], "\n") == [[k], [d]]
  {
    SplitOnChar([k] + "\n" + [d], '\n');
    SplitHead([k], [d], '\n');
    SplitNoSeparator([d], '\n');
  }

  lemma OneColumnHeader(k: char)
    requires 'a' <= k <= 'z'
    ensures HeaderKeys([k], ",") == [[k]]
  {
    SplitOnChar([k], ',');
    SplitNoSeparator([k], ',');
    TrimOfTrimmed([k]);
    assert Lower([k]) == [k];
    assert KeepKeys([[k]]) == [[k]];
  }

  lemma OneColumnData(k: char, d: char)
    requires 'a' <= k <= 'z' && '0' <= d <= '9'
    ensures HasContent([d], ",") && SplitOn([d], ",") == [[d]]
    ensures Record([[k]], [[d]]) == [([k], Str([d]))]
  {
    SplitOnChar([d], ',');
    SplitNoSeparator([d], ',');
    TrimOfTrimmed([d]);
    assert ReplaceAll([d], ",", []) == [d];
    assert IndexOf([[k]], [k]) == 0;
    assert Cell([[d]], 0) == Str([d]);
    assert RecordOf([[k]], CellOf([[d]]), 0) == [];
  }

  /** A file of a header and one data line with content, under a literal
      delimiter: the code as written returns no record for it. */
  lemma AsWrittenTwoLines(raw: string, fieldDelim: string, lineDelim: string, header: string, line: string)
    requires DelimiterModelled(OrDefault(fieldDelim, ","))
    requires PatternOf(OrDefault(fieldDelim, ",")).Literal?
    requires SplitOn(raw, OrDefault(lineDelim, "\n")) == [header, line]
    requires HasContent(line, OrDefault(fieldDelim, ","))
    ensures JsonFromDelimAsWritten(raw, fieldDelim, lineDelim) == Ok([])
  {
    var fd := OrDefault(fieldDelim, ",");
    assert [header, line][1..] == [line];
    assert BlankLines([line], fd, PatternOf(fd)) == [] by {
      assert [line][..0] == [];
    }
  }

  /** The same file read as intended gives that line's record. */
  lemma IntendedTwoLines(raw: string, fieldDelim: string, lineDelim: string, header: string, line: string)
    requires SplitOn(raw, OrDefault(lineDelim, "\n")) == [header, line]
    requires HasContent(line, OrDefault(fieldDelim, ","))
    requires HeaderKeys(header, OrDefault(fieldDelim, ",")) != []
    ensures JsonFromDelim(raw, fieldDelim, lineDelim)
            == [Record(HeaderKeys(header, OrDefault(fieldDelim, ",")), SplitOn(line, OrDefault(fieldDelim, ",")))]
  {
    var fd := OrDefault(fieldDelim, ",");
    var keys := HeaderKeys(header, fd);
    assert [header, line][1..] == [line];
    assert ContentLines([line], fd) == [SplitOn(line, fd)] by {
      assert [line][..0] == [];
    }
    RowsOne(keys, SplitOn(line, fd));
  }

  /** One split line under a non-empty header gives its record. */
  lemma RowsOne(keys: seq<string>, fields: seq<string>)
    requires keys != []
    ensures Rows(keys, [fields]) == [Record(keys, fields)]
  {
    assert [fields][..0] == [];
    RecordEmpty(keys, fields);
  }

  /** A one-column file with one line of data: the code as written returns
      nothing. */
  lemma AsWrittenDropsData(k: char, d: char)
    requires 'a' <= k <= 'z' && '0' <= d <= '9'
    ensures JsonFromDelimAsWritten([k] + "\n" + [d], "", "") == Ok([])
  {
    OneColumnLines(k, d);
    OneColumnData(k, d);
    AsWrittenTwoLines([k] + "\n" + [d], "", "", [k], [d]);
  }

  /** The same file read as intended gives the line's object. */
  lemma IntendedKeepsData(k: char, d: char)
    requires 'a' <= k <= 'z' && '0' <= d <= '9'
    ensures JsonFromDelim([k] + "\n" + [d], "", "") == [[([k], Str([d]))]]
  {
    OneColumnLines(k, d);
    OneColumnHeader(k);
    OneColumnData(k, d);
    IntendedTwoLines([k] + "\n" + [d], "", "", [k], [d]);
  }

  /** A pipe-delimited line of empty fields: the regular expression `|`
      takes nothing out, so the line is not blank to the code as written,
      while taking the delimiter out leaves nothing. */
  lemma PipeRemovesNothing()
    ensures RemoveMatches("||", PatternOf("|")) == "||"
    ensures ReplaceAll("||", "|", []) == []
    ensures !IsEmpty(Str(RemoveMatches("||", PatternOf("|"))))
  {
    assert Trim("||") == "||" by {
      TrimOfTrimmed("||");
    }
  }

  /** A `*` delimiter makes the code as written throw, whatever the text. */
  lemma StarDelimiterThrows(raw: string, lineDelim: string)
    ensures JsonFromDelimAsWritten(raw, "*", lineDelim).Throws?
  {
  }
}
