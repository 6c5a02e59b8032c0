# A Dafny model of the request-sanitising helpers and the PostgreSQL access layer

This project models the part of the service back end that sits between an
HTTP request and the database.

- `bin/util.js`:
  - `safeValueFromValue` and its two list forms check a request value against
    an expected data type, optionally look it up in a table, and turn it into
    text a statement can hold;
  - `paramsFromRequest` gathers a request's parameters;
  - `parameterizeString` fills `{key}` placeholders;
  - `insertSqlFromObjectList` builds a multi-row `INSERT`;
  - `jsonFromDelimFile` reads a delimited text file into records;
  - the small helpers `createError`, `isEmpty`, `validateEmail` and
    `uppercaseWords`.
- `bin/pg_db_async.js`: `escape`, and the bookkeeping of connections and
  transactions around the single module-level release slot
  (`exports._release`).

The JavaScript the code relies on is modelled explicitly:

- **Values.** `JsValues.JsValue` is `undefined`, `null`, a boolean, a number,
  a string, an array, or an object. An object is a list of properties in
  insertion order, without the reordering of integer-like keys.
- **Numbers.** `JsNumbers.Number` holds canonical decimals, infinities and
  NaN. `value * 1`, `=== 1` and number-to-string conversion work on exact
  decimals in place of doubles.
- **Strings.** `JsStrings` gives `trim`, `toLowerCase`, `split`, `join` and
  literal `replace` on `seq<char>`.
- **Outcomes.** The code answers in three ways, and `Outcomes.Answer` holds
  all three: `Ok(x)` is `[null, x]`, `Err(e)` is `[err]` with a
  `{code, message}` error, and `Throws(reason)` is an exception or a
  rejected promise.

The `db` object given to `safeValueFromValue` is passed in as its two
operations, `escape` and `query` (`Sanitize.Db`).

The access layer's module state is the class `PgDb.Database`:

- `releaseSlot` is the connection whose release callback the slot holds;
- a ghost `log` records every connection taken, statement sent and callback
  invoked.

The pool and the driver are not modelled. What they answer in one call is an
argument of each method: the connection handed out or `None`, and the
results or `None` for a failed statement.

`jsonFromDelimFile` is modelled on the file's contents given as a string.
Every operation that loops in the source is a method, proved equal to a
specification function. The properties of the source are lemmas about those
functions.

## Model

| member | source | states |
|---|---|---|
| JsStrings.TrimSlice | bin/util.js:577 | `trim` returns exactly the slice between the leading and the trailing white space |
| JsStrings.TrimEmptyIffBlank | bin/util.js:577 | a string trims to empty exactly when all of it is white space |
| JsStrings.TrimIdempotent | bin/util.js:139 | trimming twice is trimming once |
| JsStrings.LowerTrimCommute | bin/util.js:139 | lower-casing and trimming commute, so `toLowerCase().trim()` is also `trim().toLowerCase()` |
| JsStrings.LowerIdempotent | bin/util.js:560 | lower-casing twice is lower-casing once |
| JsStrings.Split | bin/util.js:565 | `split` on a character gives at least one piece, and no piece contains the separator |
| JsStrings.JoinSplit | bin/util.js:565-569 | joining the pieces of a split with its separator gives back the string |
| JsStrings.SplitJoin | bin/util.js:565-569 | splitting a join of separator-free pieces gives back the pieces |
| JsStrings.SplitFirstEmpty | bin/util.js:567 | the first piece of a split is empty exactly when the string is empty or starts with the separator |
| JsStrings.ReplaceAllAbsent | bin/util.js:219 | a global replace of a pattern that does not occur leaves the text unchanged |
| JsStrings.ReplaceAllSelf | bin/util.js:219 | replacing every occurrence of a pattern by itself leaves the text unchanged |
| JsStrings.ReplaceAllSplitOn | bin/util.js:362 | removing every occurrence of a separator is concatenating the pieces of the split on it |
| JsStrings.AllSpaceConcat | bin/util.js:362 | a concatenation is blank exactly when every piece is blank |
| JsNumbers.CanonicalUnique | bin/util.js:108 | two canonical finite numbers with the same value are equal, so `===` on numbers is equality of the model |
| JsNumbers.NumberRoundTrip | bin/pg_db_async.js:247-249 | `* 1` applied to the printed form of any number, NaN and the infinities included, gives the number back |
| JsNumbers.LeadingJunkIsNaN | bin/util.js:104 | text starting with a character that cannot begin a numeric literal converts to NaN |
| JsNumbers.StringToNumberDecimal | bin/util.js:104 | text starting with a sign or a digit, without a radix prefix, converts as a decimal literal |
| JsValues.SetKeys | bin/util.js:377 | assigning a property keeps the key list when the key exists, and appends the key otherwise |
| JsValues.KeysAppend | bin/util.js:293 | the keys of two property lists put together are the keys of the first followed by those of the second |
| JsValues.SetGet | bin/util.js:377 | after `o[k] = v`, reading `k` gives `v` and every other key reads as before |
| JsValues.SetDistinct | bin/util.js:377 | property assignment keeps keys distinct |
| JsValues.Delete | bin/util.js:521 | `delete o[k]` removes exactly `k` from the key list |
| JsValues.DeleteGet | bin/util.js:521 | after `delete o[k]`, `k` reads as `undefined` and every other key reads as before |
| JsValues.AssignGet | bin/util.js:509 | after `Object.assign(t, s)`, a key of `s` reads as in `s`, any other key as in `t` |
| JsValues.AssignHas | bin/util.js:509 | the keys after `Object.assign(t, s)` are those of `t` and those of `s` |
| JsValues.AssignDistinct | bin/util.js:509 | `Object.assign` keeps keys distinct |
| JsValues.OwnEntries | bin/util.js:212 | an object's own entries are its properties; an array has one entry per element and a string one per character, keyed by the decimal name of the index and holding the element or the one-character string; other values have none |
| JsValues.SingletonArrayToNumber | bin/util.js:104 | a one-element numeric array times one is that number |
| JsValues.EmptyArrayToNumber | bin/util.js:104 | an empty array times one is zero |
| JsValues.ObjectToNumber | bin/pg_db_async.js:247 | a plain object times one is NaN |
| PgDb.Escape | bin/pg_db_async.js:233-253 | throws exactly for arrays, objects and NaN-valued input; never reports an error; `null`, `undefined` and the string `'NULL'` give `NULL`; strings always come back quoted or as `NULL` |
| PgDb.EscapeStringRoundTrip | bin/pg_db_async.js:243-246 | every string other than `'NULL'` comes back between single quotes, and removing them gives the string back |
| PgDb.EscapeNumericString | bin/pg_db_async.js:243-249 | every non-empty string of digits is quoted, because the string test comes before the numeric one |
| PgDb.EscapeKeepsQuotes | bin/pg_db_async.js:245 | for every string but `'NULL'` the result holds exactly two more single quotes than the string: embedded quotes are not doubled |
| PgDb.EscapeNonStrings | bin/pg_db_async.js:247-249 | booleans become 1 or 0 and numbers are returned unchanged |
| PgDb.StatementError | bin/pg_db_async.js:125-145 | a failed statement's error has code 500 and ends with the statement text |
| PgDb.Database.constructor | bin/pg_db_async.js:21 | before any connection is taken the release slot is empty |
| PgDb.Database.GetConnection | bin/pg_db_async.js:147-168 | a successful acquire overwrites the release slot with the new connection; a failed one returns the 500 connection error and changes nothing |
| PgDb.Database.RunStatement | bin/pg_db_async.js:125-145 | without a connection nothing is sent; otherwise the statement is logged and a driver failure becomes a 500 error naming it |
| PgDb.Database.Release | bin/pg_db_async.js:170-185 | the callback in the slot is invoked whatever connection is passed, and the slot keeps it; an empty slot gives nothing; a throwing callback gives the 500 release error |
| PgDb.Database.StartTransaction | bin/pg_db_async.js:51-69 | a given connection is returned untouched; otherwise a connection is taken and `START TRANSACTION;` sent, and on failure the slot's callback is invoked and "Start transaction error" returned |
| PgDb.Database.Query | bin/pg_db_async.js:71-97 | without a connection, a new one is released only after success; with one, success leaves it open and failure rolls it back; every outcome and every logged event per case |
| PgDb.Database.Rollback | bin/pg_db_async.js:99-114 | sends `ROLLBACK;`, invokes the slot's callback and answers `[null]` whatever the driver says; throws when the slot is empty |
| PgDb.Database.Commit | bin/pg_db_async.js:116-123 | sends `COMMIT;`, invokes the slot's callback whatever happened, and fails with "Commit error" exactly when there is no connection or the statement fails |
| PgDb.CommittedTransaction | bin/pg_db_async.js:51-123 | an uninterrupted start, query and commit invokes the transaction connection's callback exactly once |
| PgDb.InterleavedQueryInTransaction | bin/pg_db_async.js:157 | a one-off query during a transaction replaces the slot; the commit then releases the one-off connection a second time and never the transaction's |
| Util.CreateError | bin/util.js:481-494 | null exactly when neither a cause nor a code is given; otherwise an object with exactly `code` and `message` |
| Util.CreateErrorAsError | bin/util.js:481-494 | with a non-zero code the result is the `{code, message}` error the model uses |
| Util.IsEmptyCases | bin/util.js:572-579 | empty means null, undefined, an object or array without own keys, or an all-white-space string |
| Util.IsEmpty | bin/util.js:572-579 | the definition of emptiness; Util.IsEmptyCases states it case by case |
| Util.ValidateEmail | bin/util.js:558-561 | the pattern matched against the lower-cased text; Util.EmailAccepted, Util.NoDotRejected and Util.ValidateEmailIgnoresCase state what it accepts |
| Util.ValidateEmailIgnoresCase | bin/util.js:558-561 | the check gives the same answer for a string and its lower-case form |
| Util.EmailFromParts | bin/util.js:559 | a valid local part, `@` and a valid domain part form an address the pattern accepts |
| Util.EmailAccepted | bin/util.js:558-561 | an address whose lower-cased parts are valid is accepted |
| Util.EmailHasDottedDomain | bin/util.js:559 | every accepted address has a `.` after its `@` |
| Util.NoDotRejected | bin/util.js:558-561 | a string without a `.` is rejected |
| Util.UppercaseWords | bin/util.js:563-570 | the loop's result is the specification `Util.UppercaseWordsSpec` |
| Util.UppercaseWordsSpec | bin/util.js:563-570 | what `uppercaseWords` returns; Util.UppercaseWordsThrows, Util.UppercaseWordsWords and Util.UppercaseWordsIdempotent state its meaning |
| Util.CapitalizedHasNoSpace | bin/util.js:567 | capitalising a word without spaces adds none, so the words can be split apart again |
| Util.UppercaseWordsThrows | bin/util.js:563-570 | throws exactly on an empty string, a leading or trailing space, or two spaces in a row |
| Util.UppercaseWordsWords | bin/util.js:563-570 | splitting the result on spaces gives the input's words, each capitalised |
| Util.UppercaseWordsIdempotent | bin/util.js:563-570 | applying the function to its own result changes nothing |
| Util.ParameterizeString | bin/util.js:208-222 | the loop's result is the specification `Util.ParameterizeSpec`; a falsy map or one without keys returns the text unchanged |
| Util.ParameterizeSpec | bin/util.js:208-222 | what `parameterizeString` returns; Util.SubstitutedAbsent and Util.IndexKeysThrow state its meaning |
| Util.SubstituteAll | bin/util.js:215-220 | substituting the keys one by one, in order, gives the specification's successive replacements |
| Util.SubstitutedStops | bin/util.js:218 | once a key makes the pattern throw, later keys are never reached |
| Util.SubstitutedAbsent | bin/util.js:215-221 | when no placeholder occurs in the text, the text comes back unchanged |
| Util.IndexKeysThrow | bin/util.js:212-218 | a non-empty array or string as the map throws, because its index keys are regex quantifiers |
| Util.IndexKeysArePlain | bin/util.js:212 | the keys of an array or a string are digit strings |
| Util.CellText | bin/util.js:311 | a cell is text exactly when `escape` accepts the value; otherwise the call throws |
| Util.RowCells | bin/util.js:308-312 | a row has one cell per column, each the escaped value under that column |
| Util.RowTuples | bin/util.js:306-314 | one tuple per object, in order, each the parenthesised cells of that row |
| Util.EscapeRow | bin/util.js:308-312 | the inner loop's result is `Util.RowCells` |
| Util.EscapeRows | bin/util.js:305-314 | the outer loop's result is `Util.RowTuples` |
| Util.InsertSqlFromObjectList | bin/util.js:290-322 | the function's result is the specification `Util.InsertSql`, with an empty list throwing |
| Util.InsertSql | bin/util.js:290-322 | what `insertSqlFromObjectList` returns; Util.InsertSqlSucceeds and Util.InsertSqlEnding state its meaning |
| Util.InsertSqlSucceeds | bin/util.js:290-322 | the statement is built exactly when the list is non-empty and every value under a column of the first object can be escaped |
| Util.RowCellsOk | bin/util.js:309-312 | a row's cells exist exactly when every value under a column can be escaped |
| Util.RowTuplesOk | bin/util.js:306-314 | the tuples exist exactly when every row's cells do |
| Util.MissingColumnIsNull | bin/util.js:311 | a column missing from a later object is written `NULL`, as is the string `'NULL'` |
| Util.InsertSqlEnding | bin/util.js:316-321 | the statement ends with the conflict clause when the conflict list is non-empty, and with the last tuple's `)` otherwise |
| Util.MysqlColumnsRoundTrip | bin/util.js:300-301 | the MySQL column list splits on commas back into the columns |
| Params.RawParamsGet | bin/util.js:509 | a merged parameter reads from the route parameters, else the query, else the body |
| Params.RawParamsHas | bin/util.js:509 | the merged parameters are those of body, query and route together |
| Params.FirstMissing | bin/util.js:513-519 | names the first required property absent from the request, or none when all are present |
| Params.LastDefaultIsLast | bin/util.js:527-539 | the default found for a key is the last one given that is not `undefined`, and there is none exactly when every default given for it is `undefined` |
| Params.Unclaimed | bin/util.js:543 | the keys left are exactly the request's keys that nothing claimed |
| Params.TakeRequired | bin/util.js:513-522 | the first loop finds the first missing property; otherwise it copies every required value and deletes exactly the required keys from the leftovers |
| Params.TakeOptionalObject | bin/util.js:527-540 | the inner loop applies one optional object and deletes its keys from the leftovers |
| Params.TakeOptional | bin/util.js:525-541 | the outer loop applies all optional objects in order and deletes all their keys from the leftovers |
| Params.ParamsFromRequest | bin/util.js:507-549 | the function's result is the specification `Params.ParamsOutcome` of the merged parameters |
| Params.ParamsOutcome | bin/util.js:507-549 | what `paramsFromRequest` returns for the merged parameters; Params.ParamsMissing, Params.ParamsUnexpected and Params.ParamsValues state its meaning |
| Params.ParamsMissing | bin/util.js:513-519 | the first absent required property gives the 400 "Missing required property" error naming it |
| Params.ParamsUnexpected | bin/util.js:543-547 | the leftover keys are exactly the request keys neither required nor optional; any leftover gives the 400 "Invalid properties received" error listing them; the call succeeds exactly when none are left |
| Params.ParamsValues | bin/util.js:512-541 | on success a key is present exactly when it is required, or optional and given or defaulted; it holds the request's value, else its last default |
| Params.RequiredValuesGet | bin/util.js:520 | the required part holds exactly the required keys, with the request's values |
| Params.ApplyOptionalGet | bin/util.js:531-539 | an optional key takes the request's value when given, else its last non-`undefined` default, else what was there |
| Params.ApplyOptionalHas | bin/util.js:531-539 | an optional key is set exactly when the request gives it or a non-`undefined` default exists |
| Sanitize.OptionsOfAssign | bin/util.js:87 | each option read is the caller's value over the defaults, as `Object.assign` gives it |
| Sanitize.DefaultValues | bin/util.js:87 | the default options' values |
| Sanitize.SafeValueFromValue | bin/util.js:85-188 | what `safeValueFromValue` returns; the Sanitize lemmas below state it case by case |
| Sanitize.Coerce | bin/util.js:99-151 | the data-type switch; Sanitize.CoerceErrors and the Coerce lemmas below state each case |
| Sanitize.Lookups | bin/util.js:153-187 | the table lookups and the escape decision; Sanitize.RecordMissing, Sanitize.RecordFound, Sanitize.AlreadyExists, Sanitize.LookupErrorPassedOn and Sanitize.EscapedUnlessNumeric state them |
| Sanitize.AbsentValue | bin/util.js:88-97 | `null` and `undefined` are answered without the database: a 400 error exactly when `error_on_null` is set, otherwise `[null, null]` |
| Sanitize.NoOptions | bin/util.js:85-188 | without options a non-string is a 400 error and a string is returned escaped |
| Sanitize.TypeCheckFirst | bin/util.js:100-151 | a value of the wrong type is rejected with "Invalid value" before any lookup |
| Sanitize.CoerceErrors | bin/util.js:100-151 | the type check never throws, and its only error is the 400 "Invalid value" for that value |
| Sanitize.CoerceNumber | bin/util.js:102-109 | `int` and `float` accept exactly the values whose `* 1` is a number, and give that number |
| Sanitize.CoerceString | bin/util.js:110-116 | `string` accepts exactly strings and keeps them |
| Sanitize.CoerceBool | bin/util.js:117-133 | `bool` maps `true`, `1` and `'true'` to 1, and `false`, `0` and `'false'` to 0; it rejects everything else |
| Sanitize.CoerceEmail | bin/util.js:134-147 | `email` accepts a string whose trimmed lower-case form matches the pattern, and returns that form |
| Sanitize.EmailNeedsString | bin/util.js:136 | `email` rejects any non-string |
| Sanitize.CoerceOther | bin/util.js:148-150 | any other data type keeps the value |
| Sanitize.CoerceIdempotent | bin/util.js:100-151 | checking an accepted value again gives the same value |
| Sanitize.RecordMissing | bin/util.js:154-161 | with `exists_in_table`, no matching row gives the 404 error naming field and value |
| Sanitize.RecordFound | bin/util.js:153-163 | on success the record is the first matching row, or `undefined` without `exists_in_table` |
| Sanitize.AlreadyExists | bin/util.js:165-173 | with `not_exists_in_table`, a matching row gives the 409 "already exists" error |
| Sanitize.LookupErrorPassedOn | bin/util.js:159-171 | an error from either lookup query is returned as it is |
| Sanitize.EscapedUnlessNumeric | bin/util.js:175-187 | `int`, `float` and `bool` values come back unescaped numbers; others are escaped exactly when `return_escaped` is truthy |
| Sanitize.PgStringRoundTrip | bin/util.js:85-188 | with the PostgreSQL escape and no options, any string but `'NULL'` comes back quoted with its text intact |
| Sanitize.PromiseAll | bin/util.js:67 | throws exactly when some answer throws, with that throw's reason; otherwise it gives all the answers |
| Sanitize.CollectValues | bin/util.js:68-73 | all values when every answer succeeds; otherwise the first error, in list order |
| Sanitize.ListOutcome | bin/util.js:67-73 | a throw anywhere wins; otherwise the first error in order; otherwise all the values |
| Sanitize.Settle | bin/util.js:67-73 | the result loop's answer is `Sanitize.ListOutcome` |
| Sanitize.SafeValueListFromValueList | bin/util.js:59-74 | the function's answer is `Sanitize.ListOutcome` of checking each value |
| Sanitize.FirstNullish | bin/util.js:48 | the first `null` or `undefined` object, where reading the property throws |
| Sanitize.SafeValueListFromObjectList | bin/util.js:42-57 | the function's answer is `Sanitize.ObjectListOutcome` |
| Sanitize.SanitizeObjects | bin/util.js:46-56 | the loops' answer is `Sanitize.ObjectsOutcome`: a throw at the first nullish object, else the list outcome |
| Sanitize.ObjectListNullish | bin/util.js:48 | a `null` or `undefined` object in the list makes the call throw |
| Sanitize.ObjectListPropertyName | bin/util.js:45 | the options' own `property_name` overrides the argument |
| DelimFile.KeepKeys | bin/util.js:350 | the header keys kept are exactly the non-blank ones other than `'\r'` |
| DelimFile.KeepKeysAppend | bin/util.js:350 | the filter distributes over concatenation, so the kept keys keep their order and their repetitions |
| DelimFile.NormalizeInPlace | bin/util.js:352-355 | the loop replaces every key in place by its lower-cased, trimmed form |
| DelimFile.HeaderKeysShape | bin/util.js:349-355 | every key is non-empty, lower-case and trimmed, and comes from a piece of the header line |
| DelimFile.IndexOf | bin/util.js:374 | `indexOf` gives the first position holding the key |
| DelimFile.CellShape | bin/util.js:374-382 | a cell is `null` or a non-empty trimmed string |
| DelimFile.RecordGet | bin/util.js:371-383 | a record has exactly the keys, each holding the cell under the key's first position |
| DelimFile.RecordOfDistinct | bin/util.js:371-383 | a record's keys are distinct |
| DelimFile.RecordEmpty | bin/util.js:384-387 | a record is empty exactly when there are no keys |
| DelimFile.BuildRecord | bin/util.js:371-383 | the loop builds `DelimFile.Record` |
| DelimFile.HasContentIffField | bin/util.js:358-366 | a line has content exactly when one of its fields is not blank |
| DelimFile.ContentLinesKeep | bin/util.js:360-366 | every line with content is kept, split, and nothing else is |
| DelimFile.RowsNoKeys | bin/util.js:384-387 | without keys no record is produced |
| DelimFile.RowsAll | bin/util.js:368-389 | with keys, every kept line gives one record, in order |
| DelimFile.JsonFromDelim | bin/util.js:340-390 | the intended reading, with lines that have content kept; DelimFile.JsonFromDelimMeaning states it |
| DelimFile.JsonFromDelimFile | bin/util.js:340-390 | the method's result is `DelimFile.JsonFromDelim`, the intended reading |
| DelimFile.JsonFromDelimMeaning | bin/util.js:340-390 | the intended result has one record per data line with content, each built from the header keys |
| DelimFile.BlankLinesAllBlank | bin/util.js:358-366 | as written, every kept line has only blank fields |
| DelimFile.JsonFromDelimAsWritten | bin/util.js:340-390 | the function as written, with the inverted test and the delimiter read as a regular expression; DelimFile.AsWrittenOnlyNulls and DelimFile.AsWrittenDropsData state what it returns |
| DelimFile.AsWrittenOnlyNulls | bin/util.js:358-389 | as written, for a delimiter read as literal text, every value of every record returned is `null` or missing |
| DelimFile.AsWrittenTwoLines | bin/util.js:358-389 | as written, for a delimiter read as literal text, a header and one data line with content give no records |
| DelimFile.IntendedTwoLines | bin/util.js:340-390 | intended, a header and one data line with content give exactly that line's record |
| DelimFile.AsWrittenDropsData | bin/util.js:362 | as written, the file `k\n1` gives no records |
| DelimFile.IntendedKeepsData | bin/util.js:340-390 | intended, the file `k\n1` gives the one record `{k: '1'}` |
| DelimFile.PipeRemovesNothing | bin/util.js:359-362 | the pipe delimiter, read as a regular expression, matches only empty text, so a line of two pipes stays non-empty after removal |
| DelimFile.StarDelimiterThrows | bin/util.js:359 | the delimiter `*` is not a valid regular expression, so the call throws |

## Left out

- `init`, `end`, the pool's configuration, timeouts and `locked_function`: they do I/O or configure the pool.
- Logging (`console.trace`, `errorLog`, `dbg`): only side output.
- `createError` logs its cause and drops it; the model keeps only `code` and `message`, as the returned object does.
- `readFileSync` and `file_type`: `jsonFromDelimFile` is modelled on the file's text given as a string.
- `roundFloat`, `get_range`, `deepClone`, `fileExists` and the S3 and file helpers are not part of this model.
- The `String.prototype.format` extension is defined in a file that is not part of this model. It is modelled as plain substitution of its arguments, printed as strings.
- Util.ParameterizeString: keys are limited to letters, digits and underscores. Other characters would be read as regular-expression syntax, which is not modelled.
- Util.ParameterizeString: `$` patterns in a replacement value are not interpreted.
- Util.InsertSqlFromObjectList: only the kinds `postgres` and `mysql` are modelled. For any other kind the source prints `undefined` as the column list.
- Util.InsertSqlFromObjectList: the `db` argument is fixed to the PostgreSQL `escape`.
- Util.InsertSqlFromObjectList: the list elements are objects. A `null` or `undefined` element is not modelled; in the source it throws at `Object.keys(list[0])` (bin/util.js:293) or at `l[f]` (bin/util.js:311).
- Sanitize.SafeValueListFromValueList: when several values throw, the model reports one of their reasons. It does not say which one `Promise.all` rejects with first, since that depends on timing.
- Sanitize.RecordFound: the rows of a lookup query are a list. The driver's result object and its `.length` are not modelled.
- Sanitize.RecordMissing: the "no record" test reads the length of the row list. With the PostgreSQL driver `results.length` is read on the driver's result object, which is not modelled.
- Sanitize.AlreadyExists: the "already exists" test reads the length of the row list. With the PostgreSQL driver `results.length` is read on the driver's result object, which is not modelled.
- Sanitize.ExistsSql and Sanitize.NotExistsSql: the statement text is built as written, with MySQL backtick quoting. Whether the database accepts it is not modelled.
- Sanitize.Db: the `{connection}` wrapper is passed to `query` as the bare connection value.
- Sanitize.Db: the model's `escape` may also answer with an error, although the source's `escape` only returns or throws.
- Params.ParamsFromRequest: a request key named `hasOwnProperty` shadows the method, so `raw_params.hasOwnProperty(p)` throws (bin/util.js:516, 531). The model answers as for any other key.
- Params.ParamsFromRequest: a body key `__proto__` is not copied as an own key by `Object.assign` (bin/util.js:509), so the source never reports it as unexpected. The model treats it as an ordinary key.
- PgDb.Database: the pool, the driver and callbacks are arguments; concurrency between awaits is not modelled. Each method runs to completion.
- JsValues.JsValue: inherited properties, getters, `length`, and the reordering of integer-like keys in `Object.keys` are not modelled.
- JsNumbers.Number: double rounding, `-0` and exponent notation when printing are not modelled. Numbers are exact decimals.
- JsStrings.LowerChar and JsStrings.UpperChar: only ASCII letters change case. Full Unicode case mapping is not modelled.
- DelimFile.JsonFromDelimAsWritten: multi-character delimiters containing regular-expression syntax are not modelled. A delimiter given as a non-string is not modelled either.
- Where the code does something other than its comments or callers suggest, the model follows the code:
  - an array given to `safeValueFromValue` without options is a 400 "Invalid value" error, since the default data type is `string`;
  - `rollback` never returns an error;
  - `query` without a connection does not release it when the statement fails;
  - `_release` invokes the slot's callback again each time it is called.

## Findings

| source | as written | input that shows it | evidently intended | confidence | as-written member | corrected member |
|---|---|---|---|---|---|---|
| bin/util.js:362 | a data line is kept only when it is blank once the delimiters are removed, so for a delimiter read as literal text lines with content are dropped | the file text `k\n1` with default delimiters gives `[]` | keep lines that have content (`!isEmpty(...)`), giving `[{k: '1'}]` | not executed | DelimFile.AsWrittenDropsData | DelimFile.IntendedKeepsData |
| bin/util.js:359-362 | the field delimiter is compiled as a regular expression, so a pipe matches only empty text and `*` throws | the pipe delimiter on a line of two pipes removes nothing; delimiter `*` throws on any file | remove the delimiter as literal text | not executed | DelimFile.PipeRemovesNothing | DelimFile.HasContentIffField |
