/** `safeValueFromValue` and its two list forms: a request value is checked
    against the expected data type, optionally looked up in a table, and
    turned into the text a statement can hold.

    The `db` argument is passed in as what its two operations answer:
    `escape` for a value, and `query` for a statement text on a connection
    (the rows, or the error the call reports). */
module Sanitize {
  import opened Outcomes
  import opened JsStrings
  import opened JsNumbers
  import opened JsValues
  import Util
  import PgDb

  /** The `db` argument. */
  datatype Db = Db(escape: JsValue -> Answer<JsValue>, query: (string, JsValue) -> Answer<seq<JsValue>>)

  /** `[null, safe_value, record]`: `record` stays `undefined` unless a
      record was looked up. */
  datatype Sanitized = Sanitized(value: JsValue, record: JsValue)

  // ---------------------------------------------------------------------
  // Options

  /** The options after `Object.assign` over the defaults, one field per
      option the function reads. */
  datatype Options = Options(
    errorOnNull: JsValue,
    propertyName: JsValue,
    dataType: JsValue,
    returnEscaped: JsValue,
    existsInTable: JsValue,
    notExistsInTable: JsValue,
    connection: JsValue)

  /** The object of defaults `safeValueFromValue` starts from. */
  const DefaultOptions: Props := [
    ("error_on_null", Bool(false)),
    ("property_name", Null),
    ("data_type", Str("string")),
    ("return_escaped", Bool(true)),
    ("exists_in_table", Null),
    ("not_exists_in_table", Null)
  ]

  /** An option given by the caller, or its default. */
  function OptionValue(entries: Props, k: string, default: JsValue): JsValue {
    if Has(entries, k) then Get(entries, k) else default
  }

  /** The options read from `raw_options`; a missing `raw_options`
      (`undefined`, or `null`) keeps every default. */
  function OptionsOf(raw: JsValue): Options {
    var es := OwnEntries(raw);
    Options(
      OptionValue(es, "error_on_null", Bool(false)),
      OptionValue(es, "property_name", Null),
      OptionValue(es, "data_type", Str("string")),
      OptionValue(es, "return_escaped", Bool(true)),
      OptionValue(es, "exists_in_table", Null),
      OptionValue(es, "not_exists_in_table", Null),
      OptionValue(es, "connection", Undefined))
  }

  lemma AssignDefault(raw: JsValue, k: string)
    requires WellFormed(raw)
    ensures Get(Assign(DefaultOptions, OwnEntries(raw)), k) == OptionValue(OwnEntries(raw), k, Get(DefaultOptions, k))
  {
    OwnEntriesDistinct(raw);
    AssignGet(DefaultOptions, OwnEntries(raw), k);
  }

  /** Each option is what `Object.assign` over the defaults leaves under its
      key: the caller's value where one is given, the default otherwise. */
  lemma {:induction false} OptionsOfAssign(raw: JsValue)
    requires WellFormed(raw)
    ensures var o := OptionsOf(raw); var merged := Assign(DefaultOptions, OwnEntries(raw));
            o.errorOnNull == Get(merged, "error_on_null")
            && o.propertyName == Get(merged, "property_name")
            && o.dataType == Get(merged, "data_type")
            && o.returnEscaped == Get(merged, "return_escaped")
            && o.existsInTable == Get(merged, "exists_in_table")
            && o.notExistsInTable == Get(merged, "not_exists_in_table")
            && o.connection == Get(merged, "connection")
  {
    AssignDefault(raw, "error_on_null");
    AssignDefault(raw, "property_name");
    AssignDefault(raw, "data_type");
    AssignDefault(raw, "return_escaped");
    AssignDefault(raw, "exists_in_table");
    AssignDefault(raw, "not_exists_in_table");
    AssignDefault(raw, "connection");
    DefaultValues();
  }

  lemma DefaultValues()
    ensures Get(DefaultOptions, "error_on_null") == Bool(false)
    ensures Get(DefaultOptions, "property_name") == Null
    ensures Get(DefaultOptions, "data_type") == Str("string")
    ensures Get(DefaultOptions, "return_escaped") == Bool(true)
    ensures Get(DefaultOptions, "exists_in_table") == Null
    ensures Get(DefaultOptions, "not_exists_in_table") == Null
    ensures Get(DefaultOptions, "connection") == Undefined
  {
    assert !Has(DefaultOptions, "connection");
  }

  // ---------------------------------------------------------------------
  // The steps of safeValueFromValue

  function InvalidValue(value: JsValue): Error {
    Error(400, "Invalid value: " + ToJsString(value))
  }

  /** The message for an absent value when `error_on_null` is set. */
  function AbsentMessage(value: JsValue, propertyName: JsValue): string {
    if Truthy(propertyName) then
      "Invalid value for " + ToJsString(propertyName) + ": " + (if value == Null then "null" else "undefined")
    else "Invalid value: " + ToJsString(value)
  }

  /** The data types whose value is a number and never goes through
      `escape`. */
  predicate NumericType(dataType: JsValue) {
    dataType == Str("int") || dataType == Str("float") || dataType == Str("bool")
  }

  /** The `bool` case: strict comparison with `true`, `1`, `'true'` and
      with `false`, `0`, `'false'`. */
  function BoolFlag(value: JsValue): Option<JsValue> {
    if value == Bool(true) || value == Num(One) || value == Str("true") then Some(Int(1))
    else if value == Bool(false) || value == Num(Zero) || value == Str("false") then Some(Int(0))
    else None
  }

  /** The `email` case on a string: lower-cased, then trimmed. */
  function EmailText(s: string): string {
    Trim(Lower(s))
  }

  /** The `switch (options.data_type)` that checks and converts the value. */
  function Coerce(value: JsValue, dataType: JsValue): Answer<JsValue> {
    if dataType == Str("int") || dataType == Str("float") then
      var n := ToNumber(value);
      if n == NaN then Err(InvalidValue(value)) else Ok(Num(n))
    else if dataType == Str("string") then
      if value.Str? then Ok(value) else Err(InvalidValue(value))
    else if dataType == Str("bool") then
      var flag := BoolFlag(value);
      if flag.Some? then Ok(flag.value) else Err(InvalidValue(value))
    else if dataType == Str("email") then
      if value.Str? && Util.ValidateEmail(Str(EmailText(value.s))) then Ok(Str(EmailText(value.s)))
      else Err(InvalidValue(value))
    else Ok(value)
  }

  /** The column a lookup compares: the `property_name` option, or the
      table's name followed by `_id`. */
  function FieldName(propertyName: JsValue, table: JsValue): string {
    if Truthy(propertyName) then ToJsString(propertyName) else ToJsString(table) + "_id"
  }

  function ExistsSql(field: string, table: JsValue, escaped: JsValue): string {
    "select * from " + ToJsString(table) + " where `" + field + "` = " + ToJsString(escaped) + " "
  }

  function NotExistsSql(field: string, table: JsValue, escaped: JsValue): string {
    "select `" + field + "` from " + ToJsString(table) + " where `" + field + "` = " + ToJsString(escaped) + " "
  }

  /** The rows the `exists_in_table` query answers for the checked value
      `v`; `escape` is applied to `v` first. */
  function ExistsRows(db: Db, o: Options, v: JsValue): Answer<seq<JsValue>> {
    var escaped := db.escape(v);
    if !escaped.Ok? then escaped.PropagateFailure()
    else db.query(ExistsSql(FieldName(o.propertyName, o.existsInTable), o.existsInTable, escaped.value), o.connection)
  }

  /** The rows the `not_exists_in_table` query answers. */
  function NotExistsRows(db: Db, o: Options, v: JsValue): Answer<seq<JsValue>> {
    var escaped := db.escape(v);
    if !escaped.Ok? then escaped.PropagateFailure()
    else db.query(NotExistsSql(FieldName(o.propertyName, o.notExistsInTable), o.notExistsInTable, escaped.value), o.connection)
  }

  /** The `exists_in_table` lookup: the first row found, `undefined` when
      there is no lookup (the option is `null`), 404 when there is no row. */
  function ExistsCheck(db: Db, o: Options, value: JsValue, v: JsValue): Answer<JsValue> {
    if o.existsInTable == Null then Ok(Undefined)
    else
      var rows := ExistsRows(db, o, v);
      if !rows.Ok? then rows.PropagateFailure()
      else if |rows.value| == 0 then
        Err(Error(404, "No record found for " + FieldName(o.propertyName, o.existsInTable) + ": " + ToJsString(value)))
      else Ok(rows.value[0])
  }

  /** The `not_exists_in_table` lookup: 409 when any row is found. */
  function NotExistsCheck(db: Db, o: Options, value: JsValue, v: JsValue): Answer<()> {
    if o.notExistsInTable == Null then Ok(())
    else
      var rows := NotExistsRows(db, o, v);
      if !rows.Ok? then rows.PropagateFailure()
      else if |rows.value| != 0 then
        Err(Error(409, FieldName(o.propertyName, o.notExistsInTable) + ": " + ToJsString(value) + " already exists"))
      else Ok(())
  }

  /** The value handed back: numbers as they are, anything else through
      `escape` unless `return_escaped` is falsy. */
  function ResultValue(db: Db, o: Options, v: JsValue): Answer<JsValue> {
    if NumericType(o.dataType) || !Truthy(o.returnEscaped) then Ok(v) else db.escape(v)
  }

  /** Both lookups and the final escape, for a value that passed its type
      check as `v`. */
  function Lookups(db: Db, o: Options, value: JsValue, v: JsValue): Answer<Sanitized> {
    var record := ExistsCheck(db, o, value, v);
    if !record.Ok? then record.PropagateFailure()
    else
      var absent := NotExistsCheck(db, o, value, v);
      if !absent.Ok? then absent.PropagateFailure()
      else
        var safe := ResultValue(db, o, v);
        if !safe.Ok? then safe.PropagateFailure()
        else Ok(Sanitized(safe.value, record.value))
  }

  /** `safeValueFromValue` once its options are read. */
  function SafeValue(db: Db, value: JsValue, o: Options): Answer<Sanitized> {
    if IsNullish(value) then
      if Truthy(o.errorOnNull) then Err(Error(400, AbsentMessage(value, o.propertyName)))
      else Ok(Sanitized(Null, Undefined))
    else
      var v := Coerce(value, o.dataType);
      if !v.Ok? then v.PropagateFailure() else Lookups(db, o, value, v.value)
  }

  /** `safeValueFromValue(db, value, raw_options)`. */
  function SafeValueFromValue(db: Db, value: JsValue, rawOptions: JsValue): Answer<Sanitized> {
    SafeValue(db, value, OptionsOf(rawOptions))
  }

  // ---------------------------------------------------------------------
  // What safeValueFromValue promises

  /** An absent value is refused with 400 exactly when `error_on_null` is
      truthy and is `null` otherwise; the database is not consulted, so the
      answer is the same whatever `db` does. */
  lemma AbsentValue(db: Db, db': Db, value: JsValue, o: Options)
    requires IsNullish(value)
    ensures SafeValue(db, value, o) == SafeValue(db', value, o)
    ensures SafeValue(db, value, o).Err? <==> Truthy(o.errorOnNull)
    ensures SafeValue(db, value, o).Err? ==> SafeValue(db, value, o).error.code == 400
    ensures SafeValue(db, value, o).Ok? ==> SafeValue(db, value, o).value == Sanitized(Null, Undefined)
  {
  }

  /** Without options a value must be a string, it is escaped, and nothing
      is looked up. */
  lemma NoOptions(db: Db, value: JsValue)
    requires !IsNullish(value)
    ensures var r := SafeValueFromValue(db, value, Undefined);
            (!value.Str? ==> r == Err(InvalidValue(value)))
            && (value.Str? && db.escape(value).Ok? ==> r == Ok(Sanitized(db.escape(value).value, Undefined)))
            && (value.Str? && db.escape(value).Throws? ==> r.Throws?)
  {
    assert OptionsOf(Undefined) == Options(Bool(false), Null, Str("string"), Bool(true), Null, Null, Undefined);
  }

  /** A value that fails its type check gives 400 "Invalid value", before
      any lookup. */
  lemma TypeCheckFirst(db: Db, value: JsValue, o: Options)
    requires !IsNullish(value) && !Coerce(value, o.dataType).Ok?
    ensures SafeValue(db, value, o) == Err(InvalidValue(value))
  {
    CoerceErrors(value, o.dataType);
  }

  /** The type check refuses only with 400 "Invalid value" and never
      throws. */
  lemma CoerceErrors(value: JsValue, dataType: JsValue)
    ensures !Coerce(value, dataType).Throws?
    ensures Coerce(value, dataType).Err? ==> Coerce(value, dataType).error == InvalidValue(value)
  {
    if dataType == Str("int") || dataType == Str("float") {
      CoerceNumber(value, dataType);
    } else if dataType == Str("string") {
      CoerceString(value);
    } else if dataType == Str("bool") {
      CoerceBool(value);
    } else if dataType == Str("email") {
      if value.Str? {
        CoerceEmail(value.s);
      } else {
        EmailNeedsString(value);
      }
    } else {
      CoerceOther(value, dataType);
    }
  }

  /** `int` and `float` accept what `value * 1` turns into a number, and
      give that number. */
  lemma CoerceNumber(value: JsValue, dataType: JsValue)
    requires dataType == Str("int") || dataType == Str("float")
    ensures Coerce(value, dataType).Ok? <==> ToNumber(value) != NaN
    ensures Coerce(value, dataType).Ok? ==> Coerce(value, dataType).value == Num(ToNumber(value))
  {
  }

  /** `string` accepts strings only, unchanged. */
  lemma CoerceString(value: JsValue)
    ensures Coerce(value, Str("string")).Ok? <==> value.Str?
    ensures Coerce(value, Str("string")).Ok? ==> Coerce(value, Str("string")).value == value
  {
  }

  /** `bool` maps `true`, `1` and `'true'` to 1 and `false`, `0` and
      `'false'` to 0, compared strictly: no other value, not even `'1'` or
      `'TRUE'`, is accepted. */
  lemma CoerceBool(value: JsValue)
    ensures Coerce(value, Str("bool")) == Ok(Int(1)) <==> value == Bool(true) || value == Int(1) || value == Str("true")
    ensures Coerce(value, Str("bool")) == Ok(Int(0)) <==> value == Bool(false) || value == Int(0) || value == Str("false")
    ensures Coerce(value, Str("bool")).Ok? ==> Coerce(value, Str("bool")).value == Int(0) || Coerce(value, Str("bool")).value == Int(1)
  {
    assert Int(1) == Num(One) && Int(0) == Num(Zero);
  }

  /** `email` accepts a string whose lower-cased and trimmed text the
      recogniser accepts, and gives that text. */
  lemma CoerceEmail(s: string)
    ensures Coerce(Str(s), Str("email"))
            == if Util.EmailPattern(EmailText(s)) then Ok(Str(EmailText(s))) else Err(InvalidValue(Str(s)))
  {
    TrimLowerIsLower(s);
    LowerCaseEmail(EmailText(s));
  }

  /** `email`, like `string`, refuses anything that is not a string. */
  lemma EmailNeedsString(value: JsValue)
    requires !value.Str?
    ensures Coerce(value, Str("email")) == Err(InvalidValue(value))
  {
  }

  /** On lower-case text, `validateEmail` is the pattern itself. */
  lemma LowerCaseEmail(t: string)
    requires Lower(t) == t
    ensures Util.ValidateEmail(Str(t)) == Util.EmailPattern(t)
  {
  }

  /** Any other data type accepts the value as it is. */
  lemma CoerceOther(value: JsValue, dataType: JsValue)
    requires dataType != Str("int") && dataType != Str("float") && dataType != Str("string")
    requires dataType != Str("bool") && dataType != Str("email")
    ensures Coerce(value, dataType) == Ok(value)
  {
  }

  /** Lower-casing then trimming a lower-cased, trimmed text changes
      nothing. */
  lemma EmailTextStable(s: string)
    ensures EmailText(EmailText(s)) == EmailText(s)
  {
    LowerTrimCommute(Lower(s));
    LowerIdempotent(s);
    TrimIdempotent(Lower(s));
  }

  /** A checked value passes the same check again unchanged. */
  lemma CoerceIdempotent(value: JsValue, dataType: JsValue)
    requires Coerce(value, dataType).Ok?
    ensures Coerce(Coerce(value, dataType).value, dataType) == Coerce(value, dataType)
  {
    if dataType == Str("int") || dataType == Str("float") {
      assert ToNumber(Coerce(value, dataType).value) == ToNumber(value);
    } else if dataType == Str("bool") {
      assert Int(1) == Num(One) && Int(0) == Num(Zero);
    } else if dataType == Str("email") {
      EmailTextStable(value.s);
    }
  }

  /** With `exists_in_table`, a lookup that finds nothing gives 404 naming
      the column (`property_name`, or the table's name followed by `_id`)
      and the value as given. */
  lemma RecordMissing(db: Db, value: JsValue, o: Options)
    requires !IsNullish(value) && Coerce(value, o.dataType).Ok? && o.existsInTable != Null
    requires ExistsRows(db, o, Coerce(value, o.dataType).value) == Ok([])
    ensures SafeValue(db, value, o)
            == Err(Error(404, "No record found for " + FieldName(o.propertyName, o.existsInTable) + ": " + ToJsString(value)))
  {
  }

  /** With `exists_in_table`, a successful call hands back the first row
      the lookup found; without it, no record. */
  lemma RecordFound(db: Db, value: JsValue, o: Options)
    requires !IsNullish(value) && SafeValue(db, value, o).Ok?
    ensures var v := Coerce(value, o.dataType);
            var record := SafeValue(db, value, o).value.record;
            v.Ok?
            && (o.existsInTable == Null ==> record == Undefined)
            && (o.existsInTable != Null ==>
                  var rows := ExistsRows(db, o, v.value);
                  rows.Ok? && rows.value != [] && record == rows.value[0])
  {
  }

  /** With `not_exists_in_table`, a lookup that finds any row gives 409. */
  lemma AlreadyExists(db: Db, value: JsValue, o: Options)
    requires !IsNullish(value) && Coerce(value, o.dataType).Ok? && o.notExistsInTable != Null
    requires ExistsCheck(db, o, value, Coerce(value, o.dataType).value).Ok?
    requires var rows := NotExistsRows(db, o, Coerce(value, o.dataType).value); rows.Ok? && rows.value != []
    ensures SafeValue(db, value, o)
            == Err(Error(409, FieldName(o.propertyName, o.notExistsInTable) + ": " + ToJsString(value) + " already exists"))
  {
  }

  /** An error reported by a lookup's query is returned as it is. */
  lemma LookupErrorPassedOn(db: Db, value: JsValue, o: Options, e: Error)
    requires !IsNullish(value) && Coerce(value, o.dataType).Ok?
    requires var v := Coerce(value, o.dataType).value;
             (o.existsInTable != Null && ExistsRows(db, o, v) == Err(e))
             || (ExistsCheck(db, o, value, v).Ok? && o.notExistsInTable != Null && NotExistsRows(db, o, v) == Err(e))
    ensures SafeValue(db, value, o) == Err(e)
  {
  }

  /** `int`, `float` and `bool` values come back as the checked number,
      never escaped, whatever `return_escaped` says; any other type comes
      back through `escape` exactly when `return_escaped` is truthy. */
  lemma EscapedUnlessNumeric(db: Db, value: JsValue, o: Options)
    requires !IsNullish(value) && SafeValue(db, value, o).Ok?
    ensures var v := Coerce(value, o.dataType);
            var safe := SafeValue(db, value, o).value.value;
            v.Ok?
            && (NumericType(o.dataType) ==> v.value.Num? && safe == v.value)
            && (!NumericType(o.dataType) && Truthy(o.returnEscaped) ==> safe == db.escape(v.value).value)
            && (!NumericType(o.dataType) && !Truthy(o.returnEscaped) ==> safe == v.value)
  {
    var v := Coerce(value, o.dataType);
    assert v.Ok?;
    assert SafeValue(db, value, o) == Lookups(db, o, value, v.value);
    LookupsValue(db, o, value, v.value);
    if o.dataType == Str("bool") {
      CoerceBool(value);
    } else if NumericType(o.dataType) {
      CoerceNumber(value, o.dataType);
    }
  }

  /** A lookup that succeeds hands back the final value. */
  lemma LookupsValue(db: Db, o: Options, value: JsValue, v: JsValue)
    requires Lookups(db, o, value, v).Ok?
    ensures ResultValue(db, o, v).Ok? && Lookups(db, o, value, v).value.value == ResultValue(db, o, v).value
  {
  }

  /** With the PostgreSQL `escape` and no options, a string other than
      `'NULL'` comes back quoted, and removing the quotes gives it back. */
  lemma PgStringRoundTrip(query: (string, JsValue) -> Answer<seq<JsValue>>, s: string)
    requires s != "NULL"
    ensures var r := SafeValueFromValue(Db(PgDb.Escape, query), Str(s), Undefined);
            r.Ok? && r.value.value.Str? && |r.value.value.s| >= 2 && PgDb.Unquote(r.value.value.s) == s
  {
    NoOptions(Db(PgDb.Escape, query), Str(s));
    PgDb.EscapeStringRoundTrip(s);
  }

  // ---------------------------------------------------------------------
  // The list forms

  /** The outcome of every element, in order: what the `promise_list`
      settles to. */
  function SanitizeEach(db: Db, values: seq<JsValue>, options: JsValue): (r: seq<Answer<Sanitized>>)
    ensures |r| == |values|
  {
    seq(|values|, i requires 0 <= i < |values| => SafeValueFromValue(db, values[i], options))
  }

  /** `Promise.all`: it rejects when any element rejects, with the reason
      of one of them; otherwise it gives every outcome. */
  function PromiseAll<T>(rs: seq<Answer<T>>): (r: Answer<seq<Answer<T>>>)
    ensures r.Throws? <==> exists i :: 0 <= i < |rs| && rs[i].Throws?
    ensures r.Throws? ==> exists i :: 0 <= i < |rs| && rs[i] == Throws(r.reason)
    ensures r.Ok? ==> r.value == rs
    ensures !r.Err?
    decreases |rs|
  {
    if rs == [] then Ok([])
    else if rs[0].Throws? then Throws(rs[0].reason)
    else
      var rest := PromiseAll(rs[1..]);
      assert forall i :: 1 <= i < |rs| ==> rs[i] == rs[1..][i - 1];
      if rest.Throws? then Throws(rest.reason) else Ok(rs)
  }

  /** The loop over the settled outcomes: the first error returns, and
      otherwise the values are collected in order. */
  function CollectValues(rs: seq<Answer<Sanitized>>): (r: Answer<seq<JsValue>>)
    ensures r.Ok? <==> forall i :: 0 <= i < |rs| ==> rs[i].Ok?
    ensures r.Ok? ==> |r.value| == |rs| && forall i :: 0 <= i < |rs| ==> r.value[i] == rs[i].value.value
    ensures r.Err? ==> exists i :: 0 <= i < |rs| && rs[i] == Err(r.error) && forall j :: 0 <= j < i ==> rs[j].Ok?
    ensures r.Throws? ==> exists i :: 0 <= i < |rs| && rs[i] == Throws(r.reason)
    decreases |rs|
  {
    if rs == [] then Ok([])
    else
      var init := rs[..|rs| - 1];
      var prev := CollectValues(init);
      assert forall i :: 0 <= i < |init| ==> init[i] == rs[i];
      if !prev.Ok? then prev
      else
        match rs[|rs| - 1]
        case Ok(s) => Ok(prev.value + [s.value])
        case Err(e) => Err(e)
        case Throws(x) => Throws(x)
  }

  /** What a list form returns once its elements have settled. */
  function ListOutcome(rs: seq<Answer<Sanitized>>): (r: Answer<seq<JsValue>>)
    ensures r.Throws? <==> exists i :: 0 <= i < |rs| && rs[i].Throws?
    ensures r.Throws? ==> exists i :: 0 <= i < |rs| && rs[i] == Throws(r.reason)
    ensures r.Err? ==> exists i :: 0 <= i < |rs| && rs[i] == Err(r.error) && forall j :: 0 <= j < i ==> rs[j].Ok?
    ensures r.Ok? <==> forall i :: 0 <= i < |rs| ==> rs[i].Ok?
    ensures r.Ok? ==> |r.value| == |rs| && forall i :: 0 <= i < |rs| ==> r.value[i] == rs[i].value.value
  {
    var all := PromiseAll(rs);
    if all.Throws? then Throws(all.reason) else CollectValues(rs)
  }

  lemma CollectValuesPrefixStep(rs: seq<Answer<Sanitized>>, i: nat)
    requires i < |rs|
    ensures CollectValues(rs[..i + 1])
            == var prev := CollectValues(rs[..i]);
               if !prev.Ok? then prev
               else match rs[i]
                    case Ok(s) => Ok(prev.value + [s.value])
                    case Err(e) => Err(e)
                    case Throws(x) => Throws(x)
  {
    assert rs[..i + 1][..i] == rs[..i];
  }

  lemma {:induction false} CollectValuesStops(rs: seq<Answer<Sanitized>>, i: nat)
    requires i <= |rs| && !CollectValues(rs[..i]).Ok?
    ensures CollectValues(rs) == CollectValues(rs[..i])
    decreases |rs| - i
  {
    if i < |rs| {
      CollectValuesPrefixStep(rs, i);
      CollectValuesStops(rs, i + 1);
    } else {
      assert rs[..i] == rs;
    }
  }

  /** `await Promise.all(promise_list)` and the loop over its outcomes,
      shared by both list forms. */
  method Settle(pending: seq<Answer<Sanitized>>) returns (r: Answer<seq<JsValue>>)
    ensures r == ListOutcome(pending)
  {
    var all := PromiseAll(pending);
    if all.Throws? {
      return Throws(all.reason);
    }
    var values: seq<JsValue> := [];
    for i := 0 to |pending|
      invariant CollectValues(pending[..i]) == Ok(values)
    {
      CollectValuesPrefixStep(pending, i);
      if pending[i].Err? {
        CollectValuesStops(pending, i + 1);
        return Err(pending[i].error);
      }
      assert pending[i].Ok?;
      values := values + [pending[i].value.value];
    }
    assert pending[..|pending|] == pending;
    r := Ok(values);
  }

  lemma SanitizeEachSnoc(db: Db, values: seq<JsValue>, v: JsValue, options: JsValue)
    ensures SanitizeEach(db, values + [v], options) == SanitizeEach(db, values, options) + [SafeValueFromValue(db, v, options)]
  {
    var vs := values + [v];
    assert forall j :: 0 <= j < |values| ==> vs[j] == values[j];
  }

  /** `safeValueListFromValueList(db, value_list, options)`. */
  method SafeValueListFromValueList(db: Db, values: seq<JsValue>, options: JsValue) returns (r: Answer<seq<JsValue>>)
    ensures r == ListOutcome(SanitizeEach(db, values, options))
  {
    var pending: seq<Answer<Sanitized>> := [];
    for i := 0 to |values|
      invariant pending == SanitizeEach(db, values[..i], options)
    {
      assert values[..i + 1] == values[..i] + [values[i]];
      SanitizeEachSnoc(db, values[..i], values[i], options);
      pending := pending + [SafeValueFromValue(db, values[i], options)];
    }
    assert values[..|values|] == values;
    r := Settle(pending);
  }

  /** `obj[property_name]`: an own property of an object, or an index of an
      array or string; `null` and `undefined` have none to read. */
  function Property(obj: JsValue, name: JsValue): JsValue {
    Get(OwnEntries(obj), ToJsString(name))
  }

  /** The error `obj[property_name]` throws on `null` or `undefined`. */
  function ReadError(obj: JsValue, name: JsValue): string {
    "TypeError: Cannot read properties of " + ToJsString(obj) + " (reading '" + ToJsString(name) + "')"
  }

  function PropertyValues(objects: seq<JsValue>, name: JsValue): (r: seq<JsValue>)
    ensures |r| == |objects|
  {
    seq(|objects|, i requires 0 <= i < |objects| => Property(objects[i], name))
  }

  /** `Object.assign({ property_name }, options)`. */
  function ObjectListOptions(propertyName: JsValue, options: JsValue): JsValue {
    Obj(Assign([("property_name", propertyName)], OwnEntries(options)))
  }

  /** The index of the first `null` or `undefined` object, if any. */
  function FirstNullish(objects: seq<JsValue>): (r: Option<nat>)
    ensures r.None? <==> forall i :: 0 <= i < |objects| ==> !IsNullish(objects[i])
    ensures r.Some? ==> r.value < |objects| && IsNullish(objects[r.value])
                        && forall j :: 0 <= j < r.value ==> !IsNullish(objects[j])
    decreases |objects|
  {
    if objects == [] then None
    else
      var init := objects[..|objects| - 1];
      var m := FirstNullish(init);
      assert forall i :: 0 <= i < |init| ==> init[i] == objects[i];
      if m.Some? then m
      else if IsNullish(objects[|objects| - 1]) then Some(|objects| - 1)
      else None
  }

  /** What `safeValueListFromObjectList(db, object_list, property_name,
      options)` returns. */
  function ObjectListOutcome(db: Db, objects: seq<JsValue>, propertyName: JsValue, options: JsValue): Answer<seq<JsValue>> {
    ObjectsOutcome(db, objects, propertyName, ObjectListOptions(propertyName, options))
  }

  /** The outcome for the objects once the options `opts` are built. */
  function ObjectsOutcome(db: Db, objects: seq<JsValue>, propertyName: JsValue, opts: JsValue): Answer<seq<JsValue>> {
    var nullish := FirstNullish(objects);
    if nullish.Some? then Throws(ReadError(objects[nullish.value], propertyName))
    else ListOutcome(SanitizeEach(db, PropertyValues(objects, propertyName), opts))
  }

  lemma FirstNullishPrefixStep(objects: seq<JsValue>, i: nat)
    requires i < |objects| && FirstNullish(objects[..i]).None?
    ensures FirstNullish(objects[..i + 1]) == if IsNullish(objects[i]) then Some(i) else None
  {
    var prefix := objects[..i + 1];
    assert forall j :: 0 <= j < i ==> prefix[j] == objects[..i][j];
  }

  lemma {:induction false} FirstNullishPrefix(objects: seq<JsValue>, n: nat)
    requires n <= |objects| && FirstNullish(objects[..n]).Some?
    ensures FirstNullish(objects) == FirstNullish(objects[..n])
    decreases |objects|
  {
    if n < |objects| {
      var init := objects[..|objects| - 1];
      assert init[..n] == objects[..n];
      FirstNullishPrefix(init, n);
    } else {
      assert objects[..n] == objects;
    }
  }

  lemma PropertyValuesPrefixStep(objects: seq<JsValue>, name: JsValue, i: nat)
    requires i < |objects|
    ensures PropertyValues(objects[..i + 1], name) == PropertyValues(objects[..i], name) + [Property(objects[i], name)]
  {
    assert objects[..i + 1][..i] == objects[..i];
  }

  /** `safeValueListFromObjectList(db, object_list, property_name,
      options)`: each object's `property_name` is read and sanitised with
      the options, whose `property_name` defaults to that name. */
  method SafeValueListFromObjectList(db: Db, objects: seq<JsValue>, propertyName: JsValue, options: JsValue)
    returns (r: Answer<seq<JsValue>>)
    ensures r == ObjectListOutcome(db, objects, propertyName, options)
  {
    var opts := ObjectListOptions(propertyName, options);
    r := SanitizeObjects(db, objects, propertyName, opts);
  }

  /** The loops of `safeValueListFromObjectList` once `opts` is built. */
  method SanitizeObjects(db: Db, objects: seq<JsValue>, propertyName: JsValue, opts: JsValue)
    returns (r: Answer<seq<JsValue>>)
    ensures r == ObjectsOutcome(db, objects, propertyName, opts)
  {
    var pending: seq<Answer<Sanitized>> := [];
    for i := 0 to |objects|
      invariant FirstNullish(objects[..i]).None?
      invariant pending == SanitizeEach(db, PropertyValues(objects[..i], propertyName), opts)
    {
      var obj := objects[i];
      FirstNullishPrefixStep(objects, i);
      if IsNullish(obj) {
        FirstNullishPrefix(objects, i + 1);
        return Throws(ReadError(obj, propertyName));
      }
      PropertyValuesPrefixStep(objects, propertyName, i);
      SanitizeEachSnoc(db, PropertyValues(objects[..i], propertyName), Property(obj, propertyName), opts);
      pending := pending + [SafeValueFromValue(db, Property(obj, propertyName), opts)];
    }
    assert objects[..|objects|] == objects;
    r := Settle(pending);
  }

  /** A `null` or `undefined` object makes the call throw, whatever the
      other objects hold. */
  lemma ObjectListNullish(db: Db, objects: seq<JsValue>, propertyName: JsValue, options: JsValue, i: nat)
    requires i < |objects| && IsNullish(objects[i])
    ensures ObjectListOutcome(db, objects, propertyName, options).Throws?
  {
  }

  /** Each object's property is sanitised with `property_name` set to the
      property's name, unless the caller's options give one. */
  lemma ObjectListPropertyName(propertyName: JsValue, options: JsValue)
    requires WellFormed(options)
    ensures OptionsOf(ObjectListOptions(propertyName, options)).propertyName
            == if Has(OwnEntries(options), "property_name") then Get(OwnEntries(options), "property_name") else propertyName
  {
    OwnEntriesDistinct(options);
    AssignGet([("property_name", propertyName)], OwnEntries(options), "property_name");
    AssignHas([("property_name", propertyName)], OwnEntries(options), "property_name");
    assert Has([("property_name", propertyName)], "property_name");
  }
}
