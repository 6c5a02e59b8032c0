/** The PostgreSQL access layer: value escaping, and the bookkeeping of
    connections and transactions around the one module-level slot that
    remembers the pool's most recent release callback.

    The pool and the driver are not modelled; what they do in one call is
    passed in as an argument:
    - `pool: Option<ConnId>`: the connection the pool hands out, or `None`
      when `connect` fails;
    - `driver: Option<JsValue>`: the results the driver reports for a
      statement, or `None` when the statement fails;
    - `callbackThrows`: whether calling the recorded release callback throws. */
module PgDb {
  import opened Outcomes
  import opened JsStrings
  import opened JsNumbers
  import opened JsValues

  // ---------------------------------------------------------------------
  // escape

  /** `escape(value)`: the SQL text of a value, or a throw. Arrays throw;
      `null`, `undefined` and the string `'NULL'` give `NULL`; any other
      string is put between single quotes as it is; any other value that
      `* 1` turns into a number gives that number; the rest throws. */
  function Escape(v: JsValue): (r: Answer<JsValue>)
    ensures r.Throws? <==> v.Arr? || v.Obj? || v == Num(NaN)
    ensures !r.Err?
    ensures r.Ok? ==> r.value.Str? || r.value.Num?
    ensures v.Str? ==> r.Ok? && r.value.Str?
    ensures v.Null? || v.Undefined? || v == Str("NULL") ==> r == Ok(Str("NULL"))
  {
    match v
    case Arr(_) => Throws("Cannot escape arrays")
    case Null => Ok(Str("NULL"))
    case Undefined => Ok(Str("NULL"))
    case Str(s) => if s == "NULL" then Ok(Str("NULL")) else Ok(Str("'" + s + "'"))
    case Obj(p) => ObjectToNumber(p); NumericOrThrow(v)
    case _ => NumericOrThrow(v)
  }

  /** The last two cases of `escape`: the value times one, unless that is
      NaN. */
  function NumericOrThrow(v: JsValue): Answer<JsValue> {
    var n := ToNumber(v);
    if n != NaN then Ok(Num(n)) else Throws("Could not escape value: " + ToJsString(v))
  }

  /** The text between the outer quotes of a quoted string. */
  function Unquote(q: string): string
    requires |q| >= 2
  {
    q[1..|q| - 1]
  }

  /** Every string but `'NULL'` comes back between quotes with its
      characters untouched, so removing the quotes gives it back. */
  lemma EscapeStringRoundTrip(s: string)
    requires s != "NULL"
    ensures Escape(Str(s)).Ok? && |Escape(Str(s)).value.s| == |s| + 2
    ensures var q := Escape(Str(s)).value.s; q[0] == '\'' && q[|q| - 1] == '\'' && Unquote(q) == s
  {
    var q := "'" + s + "'";
    assert q[1..|q| - 1] == s;
  }

  /** A numeric-looking string is still quoted: the string test comes
      before the numeric one. */
  lemma EscapeNumericString(s: string)
    requires s != [] && AllDigits(s)
    ensures Escape(Str(s)) == Ok(Str("'" + s + "'"))
  {
    assert s[0] != "NULL"[0];
  }

  /** Embedded quotes are not doubled: the result holds exactly the two
      added quotes more than the string, so a quote inside it ends the SQL
      literal early. */
  lemma EscapeKeepsQuotes(s: string)
    requires s != "NULL"
    ensures Escape(Str(s)).Ok?
    ensures multiset(Escape(Str(s)).value.s)['\''] == multiset(s)['\''] + 2
  {
    var q := "'" + s + "'";
    assert Escape(Str(s)).value.s == q;
    assert multiset(q) == multiset("'") + multiset(s) + multiset("'");
  }

  /** Booleans and numbers go through `* 1`: `true` is `1`. */
  lemma EscapeNonStrings(n: Number)
    requires n != NaN
    ensures Escape(Bool(true)) == Ok(Num(One)) && Escape(Bool(false)) == Ok(Num(Zero))
    ensures Escape(Num(n)) == Ok(Num(n))
  {
  }

  // ---------------------------------------------------------------------
  // Connections and transactions

  /** A pooled connection, by identity. */
  type ConnId = nat

  /** What happened to the database, in order: a connection handed out by
      the pool, a statement sent on a connection, or the release callback
      of a connection invoked. */
  datatype Event = Acquired(conn: ConnId) | Issued(conn: ConnId, sql: string) | ReleaseCalled(conn: ConnId)

  /** What `_release` returns: nothing when no callback was ever recorded,
      `[null]`, or `[err]` when the callback threw. */
  datatype ReleaseResult = NoCallback | Released | ReleaseFailed(error: Error)

  const AcquireError := Error(500, "Error getting database connection")
  const ReleaseError := Error(500, "Error releasing connection")

  /** The error of a failed statement names the statement. */
  function StatementError(sql: string): (e: Error)
    ensures e.code == 500 && OccursAt(e.message, sql, |e.message| - |sql|)
  {
    var prefix := "sql that failed: ";
    assert (prefix + sql)[|prefix|..] == sql;
    Error(500, prefix + sql)
  }

  /** The module state of the access layer: `exports._release`, the release
      callback of the connection the pool handed out last (here the
      connection it belongs to), and a record of what happened. */
  class Database {
    var releaseSlot: Option<ConnId>
    ghost var log: seq<Event>

    /** Before any connection is taken, no callback is recorded. */
    constructor ()
      ensures releaseSlot == None && log == []
    {
      releaseSlot := None;
      log := [];
    }

    /** How many times the log shows the release callback of `c` invoked. */
    ghost function ReleaseCount(c: ConnId): nat
      reads this
    {
      multiset(log)[ReleaseCalled(c)]
    }

    /** `_getConnection`: on success the new connection's release callback
        overwrites the slot, whatever it held. */
    method GetConnection(pool: Option<ConnId>) returns (r: Answer<ConnId>)
      modifies this
      ensures pool.Some? ==> (r == Ok(pool.value) && releaseSlot == pool
                              && log == old(log) + [Acquired(pool.value)])
      ensures pool.None? ==> r == Err(AcquireError) && releaseSlot == old(releaseSlot) && log == old(log)
    {
      if pool.Some? {
        releaseSlot := pool;
        log := log + [Acquired(pool.value)];
        r := Ok(pool.value);
      } else {
        r := Err(AcquireError);
      }
    }

    /** `_query`: without a connection nothing is sent and the call fails;
        otherwise the statement is sent and its failure becomes a 500 error
        naming the statement. */
    method RunStatement(conn: Option<ConnId>, sql: string, driver: Option<JsValue>) returns (r: Answer<JsValue>)
      modifies this`log
      ensures conn.None? ==> r == Err(StatementError(sql)) && log == old(log)
      ensures conn.Some? ==> log == old(log) + [Issued(conn.value, sql)]
      ensures conn.Some? ==> r == if driver.Some? then Ok(driver.value) else Err(StatementError(sql))
    {
      if conn.None? {
        r := Err(StatementError(sql));
      } else {
        log := log + [Issued(conn.value, sql)];
        r := if driver.Some? then Ok(driver.value) else Err(StatementError(sql));
      }
    }

    /** `_release(connection)`: the argument plays no part; the callback in
        the slot, if any, is invoked, and the slot keeps it. */
    method Release(conn: Option<ConnId>, callbackThrows: bool) returns (r: ReleaseResult)
      modifies this`log
      ensures releaseSlot.None? ==> r == NoCallback && log == old(log)
      ensures releaseSlot.Some? ==> log == old(log) + [ReleaseCalled(releaseSlot.value)]
      ensures releaseSlot.Some? ==> r == if callbackThrows then ReleaseFailed(ReleaseError) else Released
    {
      if releaseSlot.None? {
        r := NoCallback;
      } else {
        log := log + [ReleaseCalled(releaseSlot.value)];
        r := if callbackThrows then ReleaseFailed(ReleaseError) else Released;
      }
    }

    /** `startTransaction(connection)`: a given connection is handed back
        untouched; otherwise a new one is taken and `START TRANSACTION;` is
        sent on it, and when that fails the slot's callback is invoked and a
        500 error returned. */
    method StartTransaction(conn: Option<ConnId>, pool: Option<ConnId>, driver: Option<JsValue>, callbackThrows: bool)
      returns (r: Answer<ConnId>)
      modifies this
      ensures conn.Some? ==> r == Ok(conn.value) && releaseSlot == old(releaseSlot) && log == old(log)
      ensures conn.None? && pool.None? ==> r == Err(AcquireError) && releaseSlot == old(releaseSlot) && log == old(log)
      ensures conn.None? && pool.Some? ==> releaseSlot == pool
      ensures conn.None? && pool.Some? && driver.Some? ==>
                r == Ok(pool.value) && log == old(log) + [Acquired(pool.value), Issued(pool.value, "START TRANSACTION;")]
      ensures conn.None? && pool.Some? && driver.None? ==>
                r == Err(Error(500, "Start transaction error"))
                && log == old(log) + [Acquired(pool.value), Issued(pool.value, "START TRANSACTION;"), ReleaseCalled(pool.value)]
    {
      if conn.Some? {
        return Ok(conn.value);
      }
      var got := GetConnection(pool);
      if !got.Ok? {
        return got;
      }
      var c := got.value;
      var started := RunStatement(Some(c), "START TRANSACTION;", driver);
      if !started.Ok? {
        var _ := Release(Some(c), callbackThrows);
        return Err(Error(500, "Start transaction error"));
      }
      r := Ok(c);
    }

    /** `query(sql, {connection})`. Without a connection, one is taken, and
        it is released only when the statement succeeds. With one, success
        leaves it open, and failure rolls it back (`ROLLBACK;`, reported by
        `rollbackDriver`) before the statement's error is returned; a
        rollback that throws makes the query throw. */
    method Query(sql: string, conn: Option<ConnId>, pool: Option<ConnId>, driver: Option<JsValue>,
                 rollbackDriver: Option<JsValue>, callbackThrows: bool)
      returns (r: Answer<JsValue>)
      modifies this
      ensures conn.None? && pool.None? ==> r == Err(AcquireError) && releaseSlot == old(releaseSlot) && log == old(log)
      ensures conn.None? && pool.Some? ==> releaseSlot == pool
      ensures conn.None? && pool.Some? && driver.None? ==>
                r == Err(StatementError(sql)) && log == old(log) + [Acquired(pool.value), Issued(pool.value, sql)]
      ensures conn.None? && pool.Some? && driver.Some? ==>
                r == Ok(driver.value)
                && log == old(log) + [Acquired(pool.value), Issued(pool.value, sql), ReleaseCalled(pool.value)]
      ensures conn.Some? ==> releaseSlot == old(releaseSlot)
      ensures conn.Some? && driver.Some? ==> r == Ok(driver.value) && log == old(log) + [Issued(conn.value, sql)]
      ensures conn.Some? && driver.None? && old(releaseSlot).None? ==>
                r.Throws? && log == old(log) + [Issued(conn.value, sql), Issued(conn.value, "ROLLBACK;")]
      ensures conn.Some? && driver.None? && old(releaseSlot).Some? ==>
                r == Err(StatementError(sql))
                && log == old(log) + [Issued(conn.value, sql), Issued(conn.value, "ROLLBACK;"), ReleaseCalled(old(releaseSlot).value)]
    {
      var c: ConnId;
      if conn.None? {
        var got := GetConnection(pool);
        if !got.Ok? {
          return Err(AcquireError);
        }
        c := got.value;
      } else {
        c := conn.value;
      }
      var results := RunStatement(Some(c), sql, driver);
      if !results.Ok? {
        if conn.Some? {
          var rolledBack := Rollback(conn, rollbackDriver, callbackThrows);
          if rolledBack.Throws? {
            return Throws(rolledBack.reason);
          }
        }
        return results;
      }
      if conn.None? {
        var _ := Release(Some(c), callbackThrows);
      }
      r := results;
    }

    /** `rollback(connection)`: nothing without a connection; otherwise
        `ROLLBACK;` is sent and the slot's callback invoked, and the outcome
        is `[null]` whatever happened, except that an empty slot makes the
        destructuring of `_release`'s `undefined` throw. */
    method Rollback(conn: Option<ConnId>, driver: Option<JsValue>, callbackThrows: bool) returns (r: Answer<()>)
      modifies this`log
      ensures conn.None? ==> r == Ok(()) && log == old(log)
      ensures conn.Some? && releaseSlot.None? ==> r.Throws? && log == old(log) + [Issued(conn.value, "ROLLBACK;")]
      ensures conn.Some? && releaseSlot.Some? ==>
                r == Ok(()) && log == old(log) + [Issued(conn.value, "ROLLBACK;"), ReleaseCalled(releaseSlot.value)]
    {
      if conn.None? {
        return Ok(());
      }
      var _ := RunStatement(conn, "ROLLBACK;", driver);
      var released := Release(conn, callbackThrows);
      if released.NoCallback? {
        return Throws("TypeError: undefined is not iterable");
      }
      r := Ok(());
    }

    /** `commit(connection)`: `COMMIT;` is sent (a missing connection fails
        without sending anything), then the slot's callback is invoked
        whatever the outcome; a failure gives a 500 "Commit error". */
    method Commit(conn: Option<ConnId>, driver: Option<JsValue>, callbackThrows: bool) returns (r: Answer<()>)
      modifies this`log
      ensures r == if conn.Some? && driver.Some? then Ok(()) else Err(Error(500, "Commit error"))
      ensures log == old(log) + (if conn.Some? then [Issued(conn.value, "COMMIT;")] else [])
                              + (if releaseSlot.Some? then [ReleaseCalled(releaseSlot.value)] else [])
    {
      var committed := RunStatement(conn, "COMMIT;", driver);
      var _ := Release(conn, callbackThrows);
      r := if committed.Ok? then Ok(()) else Err(Error(500, "Commit error"));
    }
  }

  // ---------------------------------------------------------------------
  // What the single slot means for callers

  /** A transaction that nothing interrupts: its connection's callback is
      invoked exactly once, by the commit. */
  method CommittedTransaction(db: Database, c: ConnId, sql: string)
    returns (r: Answer<()>)
    modifies db
    ensures r == Ok(())
    ensures db.ReleaseCount(c) == old(db.ReleaseCount(c)) + 1
    ensures db.releaseSlot == Some(c)
  {
    var started := db.StartTransaction(None, Some(c), Some(Undefined), false);
    var _ := db.Query(sql, Some(c), None, Some(Undefined), None, false);
    r := db.Commit(Some(c), Some(Undefined), false);
    assert db.log == old(db.log) + [Acquired(c), Issued(c, "START TRANSACTION;"), Issued(c, sql),
                                    Issued(c, "COMMIT;"), ReleaseCalled(c)];
  }

  /** A one-off query inside a transaction takes a second connection, whose
      callback replaces the transaction's in the slot. The commit then
      invokes the second connection's callback again, and the transaction's
      connection is never given back. */
  method InterleavedQueryInTransaction(db: Database, c1: ConnId, c2: ConnId, sql: string)
    returns (r: Answer<()>)
    requires c1 != c2
    modifies db
    ensures r == Ok(())
    ensures db.ReleaseCount(c1) == old(db.ReleaseCount(c1))
    ensures db.ReleaseCount(c2) == old(db.ReleaseCount(c2)) + 2
    ensures db.releaseSlot == Some(c2)
  {
    var started := db.StartTransaction(None, Some(c1), Some(Undefined), false);
    var _ := db.Query(sql, None, Some(c2), Some(Undefined), None, false);
    r := db.Commit(Some(c1), Some(Undefined), false);
    assert db.log == old(db.log) + [Acquired(c1), Issued(c1, "START TRANSACTION;"),
                                    Acquired(c2), Issued(c2, sql), ReleaseCalled(c2),
                                    Issued(c1, "COMMIT;"), ReleaseCalled(c2)];
  }
}
