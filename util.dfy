/** The small helpers of the utility module: error records, emptiness,
    e-mail recognition, capitalisation of words, placeholder substitution
    in SQL text and the multi-row INSERT builder. */
module Util {
  import opened Outcomes
  import opened JsStrings
  import opened JsNumbers
  import opened JsValues
  import PgDb

  // ---------------------------------------------------------------------
  // createError

  /** `createError(err, code, message)` without its logging: nothing when
      there is neither a cause nor a code, otherwise `{ code, message }`;
      the cause itself is not kept. */
  function CreateError(err: JsValue, code: JsValue, message: JsValue): (r: JsValue)
    ensures r == Null <==> !Truthy(err) && !Truthy(code)
    ensures r != Null ==> r.Obj? && Keys(r.props) == ["code", "message"]
                          && Get(r.props, "code") == code && Get(r.props, "message") == message
  {
    if !Truthy(err) && !Truthy(code) then Null
    else Obj([("code", code), ("message", message)])
  }

  /** The JavaScript object an `Error` of the model stands for. */
  function ErrorValue(e: Error): JsValue {
    Obj([("code", Int(e.code)), ("message", Str(e.message))])
  }

  /** Every error the model returns has a non-zero code, so it is the
      object `createError` builds, whatever the cause. */
  lemma CreateErrorAsError(err: JsValue, e: Error)
    requires e.code != 0
    ensures CreateError(err, Int(e.code), Str(e.message)) == ErrorValue(e)
  {
  }

  // ---------------------------------------------------------------------
  // isEmpty

  /** `isEmpty(value)`: `null` or `undefined`, an object or array without
      own keys, or a string that trims to nothing. */
  predicate IsEmpty(v: JsValue) {
    IsNullish(v) || v == Obj([]) || v == Arr([]) || (v.Str? && Trim(v.s) == [])
  }

  /** The values `isEmpty` accepts, listed: numbers and booleans, even `0`
      and `false`, are never empty. */
  lemma IsEmptyCases(v: JsValue)
    ensures IsEmpty(v) <==> v == Null || v == Undefined || v == Obj([]) || v == Arr([]) || (v.Str? && AllSpace(v.s))
  {
    if v.Str? {
      TrimEmptyIffBlank(v.s);
    }
  }

  // ---------------------------------------------------------------------
  // validateEmail

  /** A character of a dot-atom local part: anything but white space and
      `< > ( ) [ ] \ . , ; : @ "`. */
  predicate AtomChar(c: char) {
    !IsSpace(c) && c !in "<>()[]\\.,;:@\""
  }

  predicate IsLineTerminator(c: char) {
    c == '\n' || c == '\r' || c == '\U{2028}' || c == '\U{2029}'
  }

  predicate IsLetter(c: char) {
    'a' <= c <= 'z' || 'A' <= c <= 'Z'
  }

  predicate LabelChar(c: char) {
    IsLetter(c) || IsDigit(c) || c == '-'
  }

  /** Non-empty runs of atom characters separated by single dots. */
  predicate DotAtom(l: string) {
    var ps := Split(l, '.');
    forall i :: 0 <= i < |ps| ==> ps[i] != [] && forall j :: 0 <= j < |ps[i]| ==> AtomChar(ps[i][j])
  }

  /** A quoted local part: a double quote, at least one character other
      than a line terminator, a double quote. */
  predicate QuotedLocal(l: string) {
    |l| >= 3 && l[0] == '"' && l[|l| - 1] == '"' && forall j :: 1 <= j < |l| - 1 ==> !IsLineTerminator(l[j])
  }

  predicate LocalPart(l: string) {
    DotAtom(l) || QuotedLocal(l)
  }

  /** `[d.d.d.d]` with one to three digits in each group. */
  predicate AddressLiteral(d: string) {
    |d| >= 2 && d[0] == '[' && d[|d| - 1] == ']' &&
    var ps := Split(d[1..|d| - 1], '.');
    |ps| == 4 && forall i :: 0 <= i < 4 ==> 1 <= |ps[i]| <= 3 && AllDigits(ps[i])
  }

  /** One or more labels of letters, digits and hyphens, each followed by a
      dot, then at least two letters. */
  predicate HostName(d: string) {
    var ps := Split(d, '.');
    var last := ps[|ps| - 1];
    |ps| >= 2
    && (forall i :: 0 <= i < |ps| - 1 ==> ps[i] != [] && forall j :: 0 <= j < |ps[i]| ==> LabelChar(ps[i][j]))
    && |last| >= 2 && forall j :: 0 <= j < |last| ==> IsLetter(last[j])
  }

  predicate DomainPart(d: string) {
    AddressLiteral(d) || HostName(d)
  }

  /** The whole string is a local part, an `@`, and a domain. */
  predicate EmailPattern(s: string) {
    exists i :: 0 <= i < |s| && s[i] == '@' && LocalPart(s[..i]) && DomainPart(s[i + 1..])
  }

  /** `validateEmail(email)`: the pattern, matched against the lower-cased
      text of the value. */
  predicate ValidateEmail(email: JsValue) {
    EmailPattern(Lower(ToJsString(email)))
  }

  /** Case never matters to the recogniser. */
  lemma ValidateEmailIgnoresCase(s: string)
    ensures ValidateEmail(Str(Lower(s))) == ValidateEmail(Str(s))
  {
    LowerIdempotent(s);
  }

  /** A string without the separator is one piece. */
  lemma SinglePiece(s: string, d: char)
    ensures d !in s ==> |Split(s, d)| == 1
  {
    if d !in s {
      SplitNoSeparator(s, d);
    }
  }

  /** Every accepted domain holds a dot. */
  lemma DomainHasDot(d: string)
    requires DomainPart(d)
    ensures '.' in d
  {
    if AddressLiteral(d) {
      var inner := d[1..|d| - 1];
      SinglePiece(inner, '.');
      var k :| 0 <= k < |inner| && inner[k] == '.';
      assert d[k + 1] == '.';
    } else {
      SinglePiece(d, '.');
    }
  }

  /** An accepted address has an `@` with a dot somewhere after it. */
  lemma EmailHasDottedDomain(s: string)
    requires EmailPattern(s)
    ensures exists i :: 0 <= i < |s| && s[i] == '@' && '.' in s[i + 1..]
  {
    var i :| 0 <= i < |s| && s[i] == '@' && LocalPart(s[..i]) && DomainPart(s[i + 1..]);
    DomainHasDot(s[i + 1..]);
  }

  lemma SplitTwo(a: string, b: string, d: char)
    requires d !in a && d !in b
    ensures Split(a + [d] + b, d) == [a, b]
  {
    SplitHead(a, b, d);
    SplitNoSeparator(b, d);
  }

  /** Text without capitals is its own lower case. */
  lemma LowerOfLowercase(s: string)
    requires forall i :: 0 <= i < |s| ==> !('A' <= s[i] <= 'Z')
    ensures Lower(s) == s
  {
  }

  /** A local part, an `@` and a domain make an address. */
  lemma EmailFromParts(local: string, domain: string)
    requires LocalPart(local) && DomainPart(domain)
    ensures EmailPattern(local + "@" + domain)
  {
    var s := local + "@" + domain;
    assert s[..|local|] == local && s[|local| + 1..] == domain;
    assert s[|local|] == '@';
  }

  /** Without a dot there is no address. */
  lemma NoDotNoEmail(s: string)
    requires '.' !in s
    ensures !EmailPattern(s)
  {
    forall i | 0 <= i < |s| && s[i] == '@' ensures !DomainPart(s[i + 1..]) {
      if DomainPart(s[i + 1..]) {
        DomainHasDot(s[i + 1..]);
      }
    }
  }

  lemma LowerAppend(a: string, b: string)
    ensures Lower(a + b) == Lower(a) + Lower(b)
  {
  }

  /** Whatever their case, a local part and a domain around an `@` are
      accepted when their lower-case forms match the pattern. */
  lemma EmailAccepted(local: string, domain: string)
    requires LocalPart(Lower(local)) && DomainPart(Lower(domain))
    ensures ValidateEmail(Str(local + "@" + domain))
  {
    LowerAppend(local + "@", domain);
    LowerAppend(local, "@");
    assert Lower("@") == "@";
    assert Lower(local + "@" + domain) == Lower(local) + "@" + Lower(domain);
    EmailFromParts(Lower(local), Lower(domain));
  }

  /** Text without a dot is refused. */
  lemma NoDotRejected(s: string)
    requires '.' !in s
    ensures !ValidateEmail(Str(s))
  {
    var t := Lower(s);
    forall k | 0 <= k < |t| ensures t[k] != '.' {
      assert s[k] in s;
    }
    NoDotNoEmail(t);
  }

  // ---------------------------------------------------------------------
  // uppercaseWords

  /** A word with its first character upper-cased. */
  function Capitalized(w: string): (r: string)
    requires w != []
    ensures |r| == |w| && r[0] == UpperChar(w[0]) && r[1..] == w[1..]
  {
    [UpperChar(w[0])] + w[1..]
  }

  function CapitalizeAll(ws: seq<string>): (r: seq<string>)
    requires forall i :: 0 <= i < |ws| ==> ws[i] != []
    ensures |r| == |ws| && forall i :: 0 <= i < |ws| ==> r[i] == Capitalized(ws[i])
  {
    seq(|ws|, i requires 0 <= i < |ws| => Capitalized(ws[i]))
  }

  predicate HasEmptyWord(ws: seq<string>) {
    exists i :: 0 <= i < |ws| && ws[i] == []
  }

  /** What `uppercaseWords(str)` computes: the words between single spaces,
      each capitalised, joined again by single spaces; an empty word (from
      an empty string, a leading or trailing space, or two spaces in a
      row) has no first character, and reading it throws. */
  function UppercaseWordsSpec(str: string): Answer<string> {
    var ws := Split(str, ' ');
    if HasEmptyWord(ws) then Throws("TypeError: Cannot read properties of undefined")
    else Ok(Join(CapitalizeAll(ws), ' '))
  }

  /** `uppercaseWords(str)`, rewriting the word array in place. */
  method UppercaseWords(str: string) returns (r: Answer<string>)
    ensures r == UppercaseWordsSpec(str)
  {
    var words := Split(str, ' ');
    ghost var original := words;
    var i := 0;
    while i < |words|
      invariant 0 <= i <= |words| == |original|
      invariant forall k :: 0 <= k < i ==> original[k] != [] && words[k] == Capitalized(original[k])
      invariant forall k :: i <= k < |words| ==> words[k] == original[k]
    {
      if words[i] == [] {
        return Throws("TypeError: Cannot read properties of undefined");
      }
      words := words[i := Capitalized(words[i])];
      i := i + 1;
    }
    assert words == CapitalizeAll(original);
    r := Ok(Join(words, ' '));
  }

  /** The call throws exactly on an empty string, a leading or trailing
      space, or two spaces in a row. */
  lemma UppercaseWordsThrows(str: string)
    ensures UppercaseWordsSpec(str).Throws?
            <==> str == [] || str[0] == ' ' || str[|str| - 1] == ' ' || DoubleSeparator(str, ' ')
  {
    SplitFirstEmpty(str, ' ');
    SplitLaterEmpty(str, ' ');
  }

  lemma CapitalizedHasNoSpace(w: string)
    requires w != [] && ' ' !in w
    ensures ' ' !in Capitalized(w)
  {
    assert w[0] in w;
    forall k | 0 <= k < |w| ensures Capitalized(w)[k] != ' ' {
      assert w[k] in w;
    }
  }

  /** Splitting the result gives back the words, each capitalised. */
  lemma UppercaseWordsWords(str: string)
    requires UppercaseWordsSpec(str).Ok?
    ensures var ws := Split(str, ' ');
            var us := Split(UppercaseWordsSpec(str).value, ' ');
            |us| == |ws| && forall i :: 0 <= i < |ws| ==> ws[i] != [] && us[i] == Capitalized(ws[i])
  {
    var ws := Split(str, ' ');
    var cs := CapitalizeAll(ws);
    forall i | 0 <= i < |cs| ensures ' ' !in cs[i] {
      CapitalizedHasNoSpace(ws[i]);
    }
    SplitJoin(cs, ' ');
  }

  /** Capitalising twice is capitalising once. */
  lemma UppercaseWordsIdempotent(str: string)
    requires UppercaseWordsSpec(str).Ok?
    ensures UppercaseWordsSpec(UppercaseWordsSpec(str).value) == UppercaseWordsSpec(str)
  {
    var t := UppercaseWordsSpec(str).value;
    UppercaseWordsWords(str);
    var ws := Split(str, ' ');
    var us := Split(t, ' ');
    assert !HasEmptyWord(us);
    assert CapitalizeAll(us) == us by {
      forall i | 0 <= i < |us| ensures Capitalized(us[i]) == us[i] {
        assert us[i] == Capitalized(ws[i]);
        assert Capitalized(us[i]) == [UpperChar(us[i][0])] + us[i][1..];
        assert us[i] == [us[i][0]] + us[i][1..];
      }
    }
    JoinSplit(t, ' ');
  }

  // ---------------------------------------------------------------------
  // parameterizeString

  /** A key made of letters, digits and underscores, the keys for which
      `new RegExp("{" + key + "}", 'g')` is either the literal text
      `{key}` or, when the key is all digits, a syntax error. */
  predicate PlainKey(k: string) {
    forall i :: 0 <= i < |k| ==> IsLetter(k[i]) || IsDigit(k[i]) || k[i] == '_'
  }

  predicate PlainKeys(values: JsValue) {
    var es := OwnEntries(values);
    forall i :: 0 <= i < |es| ==> PlainKey(es[i].0)
  }

  /** `{12}` is a quantifier with nothing before it: the pattern is
      rejected. */
  predicate QuantifierKey(k: string) {
    k != [] && AllDigits(k)
  }

  function Placeholder(k: string): (p: string)
    ensures |p| == |k| + 2 && p[0] == '{' && p[|p| - 1] == '}' && p[1..|p| - 1] == k
  {
    "{" + k + "}"
  }

  /** `map[key] || ''`, as text. */
  function ReplacementText(v: JsValue): string {
    if Truthy(v) then ToJsString(v) else ""
  }

  /** The substitutions of the first entries, in order; the first key that
      is a quantifier makes the whole call throw. */
  function Substituted(sql: string, es: Props): Answer<string>
    decreases |es|
  {
    if es == [] then Ok(sql)
    else
      var prev := Substituted(sql, es[..|es| - 1]);
      var (key, v) := es[|es| - 1];
      if !prev.Ok? then prev
      else if QuantifierKey(key) then Throws("SyntaxError: Nothing to repeat")
      else Ok(ReplaceAll(prev.value, Placeholder(key), ReplacementText(v)))
  }

  /** What `parameterizeString(sql, values)` returns. */
  function ParameterizeSpec(sql: string, values: JsValue): Answer<string> {
    if !Truthy(values) then Ok(sql)
    else Substituted(sql, OwnEntries(values))
  }

  /** Once a substitution throws, the rest are never reached. */
  lemma {:induction false} SubstitutedStops(sql: string, es: Props, i: nat)
    requires i <= |es| && !Substituted(sql, es[..i]).Ok?
    ensures Substituted(sql, es) == Substituted(sql, es[..i])
    decreases |es| - i
  {
    if i < |es| {
      assert es[..i + 1][..i] == es[..i];
      SubstitutedStops(sql, es, i + 1);
    } else {
      assert es[..i] == es;
    }
  }

  /** `parameterizeString(sql, values)`, reassigning `sql` once per key. */
  method ParameterizeString(sql: string, values: JsValue) returns (r: Answer<string>)
    requires PlainKeys(values)
    ensures r == ParameterizeSpec(sql, values)
    ensures !Truthy(values) || OwnEntries(values) == [] ==> r == Ok(sql)
  {
    if !Truthy(values) {
      return Ok(sql);
    }
    var keyList := OwnEntries(values);
    if |keyList| == 0 {
      return Ok(sql);
    }
    r := SubstituteAll(sql, keyList);
  }

  /** The loop of `parameterizeString` over the map's entries. */
  method SubstituteAll(sql: string, keyList: Props) returns (r: Answer<string>)
    ensures r == Substituted(sql, keyList)
  {
    var text := sql;
    var i := 0;
    while i < |keyList|
      invariant 0 <= i <= |keyList|
      invariant Substituted(sql, keyList[..i]) == Ok(text)
    {
      var (key, v) := keyList[i];
      assert keyList[..i + 1][..i] == keyList[..i];
      if QuantifierKey(key) {
        SubstitutedStops(sql, keyList, i + 1);
        return Throws("SyntaxError: Nothing to repeat");
      }
      text := ReplaceAll(text, Placeholder(key), ReplacementText(v));
      i := i + 1;
    }
    assert keyList[..i] == keyList;
    r := Ok(text);
  }

  /** Text that holds none of the placeholders comes back unchanged. */
  lemma {:induction false} SubstitutedAbsent(sql: string, es: Props)
    requires forall i :: 0 <= i < |es| ==> !QuantifierKey(es[i].0) && !Contains(sql, Placeholder(es[i].0))
    ensures Substituted(sql, es) == Ok(sql)
    decreases |es|
  {
    if es != [] {
      SubstitutedAbsent(sql, es[..|es| - 1]);
      var (key, v) := es[|es| - 1];
      ReplaceAllAbsent(sql, Placeholder(key), ReplacementText(v));
    }
  }

  /** An array or a non-empty string as the map has index keys, and the
      first of them, `0`, makes the pattern `{0}` throw. */
  lemma IndexKeysThrow(sql: string, values: JsValue)
    requires (values.Arr? && values.elems != []) || (values.Str? && values.s != [])
    ensures ParameterizeSpec(sql, values).Throws?
  {
    var es := OwnEntries(values);
    assert es[0].0 == NatToDigits(0);
    assert es[..1][..0] == [];
    SubstitutedStops(sql, es, 1);
  }

  /** Array and string maps only ever have plain keys. */
  lemma IndexKeysArePlain(values: JsValue)
    requires values.Arr? || values.Str?
    ensures PlainKeys(values)
  {
    var es := OwnEntries(values);
    forall i | 0 <= i < |es| ensures PlainKey(es[i].0) {
      assert es[i].0 == NatToDigits(i);
    }
  }

  // ---------------------------------------------------------------------
  // insertSqlFromObjectList

  /** The database kinds with a column list; for any other kind the column
      list is `undefined`. */
  datatype DatabaseKind = Postgres | Mysql

  /** The column list: double-quoted names for PostgreSQL, bare names for
      MySQL, separated by commas. */
  function ColumnList(kind: DatabaseKind, fields: seq<string>): string {
    match kind
    case Postgres => "\"" + JoinWith(fields, "\",\"") + "\""
    case Mysql => JoinWith(fields, ",")
  }

  /** Whether `escape` accepts a value. */
  predicate Escapable(v: JsValue) {
    !(v.Arr? || v.Obj? || v == Num(NaN))
  }

  /** The text a value takes in the VALUES list: `escape`'s result as
      `join` prints it. */
  function CellText(v: JsValue): (r: Answer<string>)
    ensures r.Ok? <==> Escapable(v)
    ensures !r.Err?
  {
    var e := PgDb.Escape(v);
    if e.Ok? then Ok(ToJsString(e.value)) else e.PropagateFailure()
  }

  /** The cells of one row, in column order; the first value `escape`
      refuses makes the whole call throw. */
  function RowCells(row: Props, fields: seq<string>): (r: Answer<seq<string>>)
    ensures r.Ok? ==> |r.value| == |fields|
                      && forall j :: 0 <= j < |fields| ==> CellText(Get(row, fields[j])) == Ok(r.value[j])
    ensures !r.Err?
    decreases |fields|
  {
    if fields == [] then Ok([])
    else
      var prev := RowCells(row, fields[..|fields| - 1]);
      var cell := CellText(Get(row, fields[|fields| - 1]));
      if !prev.Ok? then prev
      else if !cell.Ok? then cell.PropagateFailure()
      else Ok(prev.value + [cell.value])
  }

  /** One row as a parenthesised tuple. */
  function RowTuple(cells: seq<string>): string {
    "(" + Join(cells, ',') + ")"
  }

  /** The tuples of all rows, in order. */
  function RowTuples(list: seq<Props>, fields: seq<string>): (r: Answer<seq<string>>)
    ensures r.Ok? ==> |r.value| == |list|
                      && forall i :: 0 <= i < |list| ==> RowCells(list[i], fields).Ok?
                                                         && r.value[i] == RowTuple(RowCells(list[i], fields).value)
    ensures !r.Err?
    decreases |list|
  {
    if list == [] then Ok([])
    else
      var init := list[..|list| - 1];
      var prev := RowTuples(init, fields);
      var cells := RowCells(list[|list| - 1], fields);
      if !prev.Ok? then prev
      else if !cells.Ok? then cells.PropagateFailure()
      else
        assert forall i :: 0 <= i < |init| ==> init[i] == list[i];
        Ok(prev.value + [RowTuple(cells.value)])
  }

  /** The `ON CONFLICT` clause, present only for a non-empty list. */
  function ConflictClause(conflict: Option<seq<string>>): string {
    if conflict.Some? && |conflict.value| > 0 then " ON CONFLICT( " + Join(conflict.value, ',') + " ) DO NOTHING"
    else ""
  }

  /** What `insertSqlFromObjectList(list, table, conflict, kind)` returns:
      the columns are the keys of the first object; an empty list has no
      first object and `Object.keys` throws. */
  function InsertSql(list: seq<Props>, table: string, conflict: Option<seq<string>>, kind: DatabaseKind): Answer<string> {
    if list == [] then Throws("TypeError: Cannot convert undefined or null to object")
    else
      var fields := Keys(list[0]);
      var tuples := RowTuples(list, fields);
      if !tuples.Ok? then tuples.PropagateFailure()
      else Ok("INSERT INTO " + table + " (" + ColumnList(kind, fields) + ") VALUES " + Join(tuples.value, ',')
              + ConflictClause(conflict))
  }

  lemma {:induction false} RowCellsStops(row: Props, fields: seq<string>, j: nat)
    requires j <= |fields| && !RowCells(row, fields[..j]).Ok?
    ensures RowCells(row, fields) == RowCells(row, fields[..j])
    decreases |fields| - j
  {
    if j < |fields| {
      assert fields[..j + 1][..j] == fields[..j];
      RowCellsStops(row, fields, j + 1);
    } else {
      assert fields[..j] == fields;
    }
  }

  lemma {:induction false} RowTuplesStops(list: seq<Props>, fields: seq<string>, i: nat)
    requires i <= |list| && !RowTuples(list[..i], fields).Ok?
    ensures RowTuples(list, fields) == RowTuples(list[..i], fields)
    decreases |list| - i
  {
    if i < |list| {
      assert list[..i + 1][..i] == list[..i];
      RowTuplesStops(list, fields, i + 1);
    } else {
      assert list[..i] == list;
    }
  }

  /** One more column, for the loop that escapes a row. */
  lemma RowCellsPrefixStep(row: Props, fields: seq<string>, j: nat)
    requires j < |fields|
    ensures RowCells(row, fields[..j + 1])
            == var prev := RowCells(row, fields[..j]);
               var cell := CellText(Get(row, fields[j]));
               if !prev.Ok? then prev
               else if !cell.Ok? then cell.PropagateFailure()
               else Ok(prev.value + [cell.value])
  {
    assert fields[..j + 1][..j] == fields[..j];
  }

  /** One more row, for the loop over the objects. */
  lemma RowTuplesPrefixStep(list: seq<Props>, fields: seq<string>, i: nat)
    requires i < |list|
    ensures RowTuples(list[..i + 1], fields)
            == var prev := RowTuples(list[..i], fields);
               var cells := RowCells(list[i], fields);
               if !prev.Ok? then prev
               else if !cells.Ok? then cells.PropagateFailure()
               else Ok(prev.value + [RowTuple(cells.value)])
  {
    assert list[..i + 1][..i] == list[..i];
  }

  /** The inner loop of `insertSqlFromObjectList`: the escaped values of
      one object, column by column. */
  method EscapeRow(row: Props, fields: seq<string>) returns (r: Answer<seq<string>>)
    ensures r == RowCells(row, fields)
  {
    var cells: seq<string> := [];
    var j := 0;
    while j < |fields|
      invariant 0 <= j <= |fields|
      invariant RowCells(row, fields[..j]) == Ok(cells)
    {
      RowCellsPrefixStep(row, fields, j);
      var cell := CellText(Get(row, fields[j]));
      if !cell.Ok? {
        RowCellsStops(row, fields, j + 1);
        return Throws(cell.reason);
      }
      cells := cells + [cell.value];
      j := j + 1;
    }
    assert fields[..j] == fields;
    r := Ok(cells);
  }

  /** `insertSqlFromObjectList`, building one tuple per object. */
  method InsertSqlFromObjectList(list: seq<Props>, table: string, conflict: Option<seq<string>>, kind: DatabaseKind)
    returns (r: Answer<string>)
    ensures r == InsertSql(list, table, conflict, kind)
  {
    if |list| == 0 {
      return Throws("TypeError: Cannot convert undefined or null to object");
    }
    var fields := Keys(list[0]);
    var columns := ColumnList(kind, fields);
    var tuples := EscapeRows(list, fields);
    if !tuples.Ok? {
      return tuples.PropagateFailure();
    }
    r := Ok("INSERT INTO " + table + " (" + columns + ") VALUES " + Join(tuples.value, ',') + ConflictClause(conflict));
  }

  /** The loop of `insertSqlFromObjectList` over the objects: one tuple per
      object, and the first value `escape` refuses ends it. */
  method EscapeRows(list: seq<Props>, fields: seq<string>) returns (r: Answer<seq<string>>)
    ensures r == RowTuples(list, fields)
  {
    var tuples: seq<string> := [];
    var i := 0;
    while i < |list|
      invariant 0 <= i <= |list|
      invariant RowTuples(list[..i], fields) == Ok(tuples)
    {
      RowTuplesPrefixStep(list, fields, i);
      var cells := EscapeRow(list[i], fields);
      if !cells.Ok? {
        RowTuplesStops(list, fields, i + 1);
        return Throws(cells.reason);
      }
      tuples := tuples + [RowTuple(cells.value)];
      i := i + 1;
    }
    assert list[..i] == list;
    r := Ok(tuples);
  }

  /** The statement is built exactly when the list is non-empty and every
      value under a column of the first object can be escaped. */
  lemma InsertSqlSucceeds(list: seq<Props>, table: string, conflict: Option<seq<string>>, kind: DatabaseKind)
    ensures InsertSql(list, table, conflict, kind).Ok?
            <==> list != [] && forall i, j :: 0 <= i < |list| && 0 <= j < |Keys(list[0])| ==> Escapable(Get(list[i], Keys(list[0])[j]))
  {
    if list == [] {
      assert InsertSql(list, table, conflict, kind).Throws?;
    } else {
      var fields := Keys(list[0]);
      InsertSqlOk(list, table, conflict, kind);
      RowTuplesOk(list, fields);
      if RowTuples(list, fields).Ok? {
        forall i, j | 0 <= i < |list| && 0 <= j < |fields| ensures Escapable(Get(list[i], fields[j])) {
          RowCellsOk(list[i], fields);
        }
      } else {
        var i :| 0 <= i < |list| && !RowCells(list[i], fields).Ok?;
        RowCellsOk(list[i], fields);
        var j :| 0 <= j < |fields| && !Escapable(Get(list[i], fields[j]));
      }
    }
  }

  lemma InsertSqlOk(list: seq<Props>, table: string, conflict: Option<seq<string>>, kind: DatabaseKind)
    requires list != []
    ensures InsertSql(list, table, conflict, kind).Ok? <==> RowTuples(list, Keys(list[0])).Ok?
  {
  }

  lemma {:induction false} RowCellsOk(row: Props, fields: seq<string>)
    ensures RowCells(row, fields).Ok? <==> forall j :: 0 <= j < |fields| ==> Escapable(Get(row, fields[j]))
    decreases |fields|
  {
    if fields != [] {
      var init := fields[..|fields| - 1];
      RowCellsOk(row, init);
      assert forall j :: 0 <= j < |init| ==> init[j] == fields[j];
    }
  }

  lemma {:induction false} RowTuplesOk(list: seq<Props>, fields: seq<string>)
    ensures RowTuples(list, fields).Ok? <==> forall i :: 0 <= i < |list| ==> RowCells(list[i], fields).Ok?
    decreases |list|
  {
    if list != [] {
      var init := list[..|list| - 1];
      RowTuplesOk(init, fields);
      assert forall i :: 0 <= i < |init| ==> init[i] == list[i];
    }
  }

  /** A column missing from a later object is written as `NULL`, and so is
      the string `'NULL'`. */
  lemma MissingColumnIsNull(row: Props, f: string)
    ensures !Has(row, f) ==> CellText(Get(row, f)) == Ok("NULL")
    ensures CellText(Str("NULL")) == Ok("NULL")
  {
  }

  /** The statement ends with the conflict clause when the conflict list
      is non-empty, and with the last tuple's `)` otherwise. */
  lemma InsertSqlEnding(list: seq<Props>, table: string, conflict: Option<seq<string>>, kind: DatabaseKind)
    requires InsertSql(list, table, conflict, kind).Ok?
    ensures var sql := InsertSql(list, table, conflict, kind).value;
            var tail := " ) DO NOTHING";
            if conflict.Some? && |conflict.value| > 0
            then |sql| >= |tail| && sql[|sql| - |tail|..] == tail
            else sql[|sql| - 1] == ')'
  {
    var sql := InsertSql(list, table, conflict, kind).value;
    var tuples := RowTuples(list, Keys(list[0])).value;
    JoinEndsWithLast(tuples, ',');
    var last := tuples[|tuples| - 1];
    assert last[|last| - 1] == ')';
  }

  /** A join ends with its last piece. */
  lemma {:induction false} JoinEndsWithLast(ws: seq<string>, d: char)
    requires ws != []
    ensures var j := Join(ws, d); |j| >= |ws[|ws| - 1]| && j[|j| - |ws[|ws| - 1]|..] == ws[|ws| - 1]
  {
    if |ws| > 1 {
      JoinEndsWithLast(ws[1..], d);
    }
  }

  /** With MySQL, splitting the column list at commas gives back the
      columns, when no column name holds a comma. */
  lemma MysqlColumnsRoundTrip(fields: seq<string>)
    requires fields != [] && forall i :: 0 <= i < |fields| ==> ',' !in fields[i]
    ensures Split(ColumnList(Mysql, fields), ',') == fields
  {
    JoinWithChar(fields, ',');
    SplitJoin(fields, ',');
  }

  lemma {:induction false} JoinWithChar(ws: seq<string>, d: char)
    ensures JoinWith(ws, [d]) == Join(ws, d)
  {
    if |ws| > 1 {
      JoinWithChar(ws[1..], d);
    }
  }
}
