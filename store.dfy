/** The resilient database wrapper of rrd/store.py.

    A `DB` keeps one lazily created MySQL connection in `conn`. Everything the
    driver does is an input here: whether `MySQLdb.connect` succeeds, what
    each `cursor.execute` raises, what `commit`/`rollback` raise, and the
    values `lastrowid`, `rowcount` and `fetchall` give back. Raised Python
    exceptions become `Err` results. Every call the wrapper makes on the
    driver, and every line it logs, is recorded as an `Effect`, so that the
    contracts can say what was called, how often and in which order.

    Each operation is a pure function from the wrapper's state and the
    driver's behaviour to an `Out` (new state, effects, result); its
    `ensures` clauses state what the source promises. The class `DB` in
    module StoreDb performs the same operations in place on its fields. */
module Store {
  import opened Common

  /** A MySQL connection, by identity. */
  datatype Conn = Conn(id: nat)

  /** A cursor; `serial` tells apart the cursors the wrapper opens. */
  datatype Cursor = Cursor(conn: Conn, serial: nat)

  /** A result row: MySQL never returns a row without columns. */
  type Row = r: seq<string> | |r| > 0 witness [""]

  /** The exception classes the wrapper tells apart. */
  datatype DbError =
    | AttributeError        // e.g. `None.cursor()` after a failed connect
    | OperationalError      // the server went away, lost connection, ...
    | IntegrityError        // a unique or foreign key was violated
    | OtherError(what: string)

  /** The classes `execute` answers with a reconnect and one retry. */
  predicate Transient(e: DbError) { e.AttributeError? || e.OperationalError? }

  /** What one call into the driver does: return, or raise. */
  datatype Attempt = Succeeds | Raises(error: DbError)

  /** What `MySQLdb.connect(...)` does. */
  datatype Connecting = Connected(conn: Conn) | Refused

  /** The wrapper's own state: the cached connection and the number of
      cursors it has opened so far. */
  datatype DbState = DbState(conn: Option<Conn>, cursors: nat)

  datatype Effect =
    | ConnectCalled(result: Option<Conn>)  // connect_db (a failure is logged as critical)
    | CursorOpened(cursor: Cursor)         // conn.cursor()
    | Executed(cursor: Cursor)             // cursor.execute(*a, **kw): one attempt
    | ConnClosed(conn: Conn)
    | CursorClosed(cursor: Cursor)
    | CommitCalled(conn: Conn)
    | RollbackCalled(conn: Conn)
    | LastRowIdRead(cursor: Cursor)
    | RowCountRead(cursor: Cursor)
    | RowsFetched(cursor: Cursor)
    | LoggedSlow                           // [DB_SLOW]
    | LoggedReconnect(error: DbError)      // [DB_RECONNECT]
    | LoggedError(error: DbError)          // [DB_ERROR]

  /** The outcome of one wrapper operation. */
  datatype Out<+T> = Out(state: DbState, effects: seq<Effect>, result: Result<T, DbError>)

  /** How the driver behaves during one `execute` call. */
  datatype ExecEnv = ExecEnv(
    given: Option<Cursor>,  // the `cursor` keyword argument, if passed
    connect: Connecting,    // MySQLdb.connect, should the first attempt need a connection
    first: Attempt,         // cursor.execute on the first attempt
    reconnect: Connecting,  // MySQLdb.connect after a transient failure
    retry: Attempt,         // cursor.execute on the retry
    elapsedMs: nat)         // how long a successful first attempt took

  /** How the driver behaves during one `insert` or `update` call. */
  datatype WriteEnv = WriteEnv(exec: ExecEnv, commit: Attempt, rollback: Attempt, lastRowId: nat, rowCount: nat)

  /** How the driver behaves during one `query_*` call. */
  datatype QueryEnv = QueryEnv(exec: ExecEnv, rows: seq<Row>)

  /** Number of statement attempts recorded in a trace. */
  function Attempts(effects: seq<Effect>): nat
  {
    if effects == [] then 0
    else Attempts(effects[..|effects| - 1]) + (if effects[|effects| - 1].Executed? then 1 else 0)
  }

  /** Number of cursors closed in a trace. */
  function CursorsClosed(effects: seq<Effect>): nat
  {
    if effects == [] then 0
    else CursorsClosed(effects[..|effects| - 1]) + (if effects[|effects| - 1].CursorClosed? then 1 else 0)
  }

  lemma {:induction false} CountsOfConcat(a: seq<Effect>, b: seq<Effect>)
    ensures Attempts(a + b) == Attempts(a) + Attempts(b)
    ensures CursorsClosed(a + b) == CursorsClosed(a) + CursorsClosed(b)
    decreases |b|
  {
    if b == [] {
      assert a + b == a;
    } else {
      var b' := b[..|b| - 1];
      assert (a + b)[..|a + b| - 1] == a + b';
      CountsOfConcat(a, b');
    }
  }

  // ---------------------------------------------------------------------
  // connect_db and get_conn

  /** connect_db: the new connection, or None when connecting raised. */
  function ConnectDb(c: Connecting): (r: Option<Conn>)
    ensures r.None? <==> c.Refused?
    ensures c.Connected? ==> r == Some(c.conn)
  {
    match c
    case Connected(conn) => Some(conn)
    case Refused => None
  }

  /** get_conn: connects only when no connection is cached. */
  function GetConn(st: DbState, c: Connecting): (r: Out<Option<Conn>>)
    ensures r.result.Ok? && r.result.value == r.state.conn
    ensures r.state.cursors == st.cursors
    ensures st.conn.Some? ==> r.state == st && r.effects == []
    ensures st.conn.None? ==> r.state.conn == ConnectDb(c) && r.effects == [ConnectCalled(ConnectDb(c))]
    ensures c.Refused? ==> r.state.conn == st.conn
  {
    if st.conn.Some? then Out(st, [], Ok(st.conn))
    else
      var conn := ConnectDb(c);
      Out(DbState(conn, st.cursors), [ConnectCalled(conn)], Ok(conn))
  }

  /** Opens a new cursor on a live connection. */
  function OpenCursor(st: DbState, conn: Conn): (DbState, Cursor)
  {
    (DbState(st.conn, st.cursors + 1), Cursor(conn, st.cursors))
  }

  // ---------------------------------------------------------------------
  // execute

  /** The state and trace just before the first `cursor.execute`, and the
      cursor it runs on: the caller's cursor when one was passed, otherwise
      a new cursor of the (possibly just opened) connection. `None` when no
      connection could be had: `None.cursor()` raises AttributeError. */
  function FirstCursor(st: DbState, env: ExecEnv): (r: (DbState, seq<Effect>, Option<Cursor>))
    ensures r.0.conn == GetConn(st, env.connect).state.conn || env.given.Some?
    ensures env.given.Some? ==> r == (st, [], env.given)
    ensures env.given.None? ==> (r.2.None? <==> GetConn(st, env.connect).state.conn.None?)
  {
    if env.given.Some? then (st, [], env.given)
    else
      var g := GetConn(st, env.connect);
      if g.state.conn.None? then (g.state, g.effects, None)
      else
        var (st', c) := OpenCursor(g.state, g.state.conn.value);
        (st', g.effects + [CursorOpened(c)], Some(c))
  }

  /** The conn the first attempt sees after `get_conn`. */
  function ConnAfterFirstCursor(st: DbState, env: ExecEnv): Option<Conn>
  {
    FirstCursor(st, env).0.conn
  }

  /** What the first attempt does: its own outcome, or AttributeError when
      there was no cursor to run it on. */
  function FirstOutcome(st: DbState, env: ExecEnv): Attempt
  {
    if FirstCursor(st, env).2.None? then Raises(AttributeError) else env.first
  }

  /** The except-handler of `execute` after a transient failure `e`: log,
      close and drop the connection, reconnect, and run the statement once
      more on a fresh cursor. Whatever the retry raises propagates. */
  function Reconnect(st: DbState, e: DbError, env: ExecEnv): Out<Cursor>
  {
    var closing := if st.conn.Some? then [ConnClosed(st.conn.value)] else [];
    var g := GetConn(DbState(None, st.cursors), env.reconnect);
    var prefix := [LoggedReconnect(e)] + closing + g.effects;
    if g.state.conn.None? then Out(g.state, prefix, Err(AttributeError))
    else
      var (st', c) := OpenCursor(g.state, g.state.conn.value);
      Out(st', prefix + [CursorOpened(c), Executed(c)],
          if env.retry.Succeeds? then Ok(c) else Err(env.retry.error))
  }

  /** DB.execute. */
  function Execute(st: DbState, env: ExecEnv): Out<Cursor>
  {
    var (st1, eff1, cursor) := FirstCursor(st, env);
    if cursor.None? then
      var h := Reconnect(st1, AttributeError, env);
      Out(h.state, eff1 + h.effects, h.result)
    else
      var ran := eff1 + [Executed(cursor.value)];
      match env.first
      case Succeeds =>
        Out(st1, ran + (if env.elapsedMs > 100 then [LoggedSlow] else []), Ok(cursor.value))
      case Raises(e) =>
        if Transient(e) then
          var h := Reconnect(st1, e, env);
          Out(h.state, ran + h.effects, h.result)
        else
          Out(st1, ran + [LoggedError(e)], Err(e))
  }

  lemma CountsOfOne(x: Effect)
    ensures Attempts([x]) == (if x.Executed? then 1 else 0)
    ensures CursorsClosed([x]) == (if x.CursorClosed? then 1 else 0)
  {
    assert [x][..0] == [];
  }

  /** The handler runs the statement once when it gets a connection, and
      not at all when reconnecting fails. */
  lemma ReconnectFacts(st: DbState, e: DbError, env: ExecEnv)
    ensures var r := Reconnect(st, e, env);
      && r.state.conn == ConnectDb(env.reconnect)
      && |r.effects| >= 2 && r.effects[0] == LoggedReconnect(e)
      && (st.conn.Some? ==> r.effects[1] == ConnClosed(st.conn.value))
      && Attempts(r.effects) == (if env.reconnect.Connected? then 1 else 0)
      && CursorsClosed(r.effects) == 0
      && (env.reconnect.Refused? ==> r.result == Err(AttributeError))
      && (env.reconnect.Connected? ==>
            var c := Cursor(env.reconnect.conn, st.cursors);
            && r.effects[|r.effects| - 1] == Executed(c)
            && r.result == (if env.retry.Succeeds? then Ok(c) else Err(env.retry.error)))
  {
    var closing := if st.conn.Some? then [ConnClosed(st.conn.value)] else [];
    var g := GetConn(DbState(None, st.cursors), env.reconnect);
    CountsOfOne(LoggedReconnect(e));
    if st.conn.Some? { CountsOfOne(ConnClosed(st.conn.value)); }
    CountsOfConcat([LoggedReconnect(e)], closing);
    CountsOfOne(g.effects[0]);
    CountsOfConcat([LoggedReconnect(e)] + closing, g.effects);
    var prefix := [LoggedReconnect(e)] + closing + g.effects;
    if g.state.conn.Some? {
      var c := Cursor(g.state.conn.value, st.cursors);
      CountsOfOne(CursorOpened(c));
      CountsOfOne(Executed(c));
      CountsOfConcat([CursorOpened(c)], [Executed(c)]);
      CountsOfConcat(prefix, [CursorOpened(c), Executed(c)]);
    }
  }

  /** A first attempt that succeeds is the only attempt, and `execute`
      returns the cursor that ran the statement: the caller's cursor if one
      was passed, otherwise a new cursor of the connection. */
  lemma ExecuteFirstSucceeds(st: DbState, env: ExecEnv)
    requires FirstOutcome(st, env).Succeeds?
    ensures var r := Execute(st, env);
      && Attempts(r.effects) == 1
      && CursorsClosed(r.effects) == 0
      && r.result.Ok? && Executed(r.result.value) in r.effects
      && (env.given.Some? ==> r.result == Ok(env.given.value) && r.state == st)
      && (env.given.None? ==>
            && ConnAfterFirstCursor(st, env).Some?
            && r.result == Ok(Cursor(ConnAfterFirstCursor(st, env).value, st.cursors))
            && r.state == DbState(ConnAfterFirstCursor(st, env), st.cursors + 1))
  {
    SucceedsCounts(st, env);
    SucceedsOn(st, env);
  }

  /** One attempt, no cursor closed, and the cursor returned is the one the
      statement ran on. */
  lemma SucceedsCounts(st: DbState, env: ExecEnv)
    requires FirstOutcome(st, env).Succeeds?
    ensures var r := Execute(st, env);
      && Attempts(r.effects) == 1
      && CursorsClosed(r.effects) == 0
      && r.result.Ok? && Executed(r.result.value) in r.effects
  {
    var (st1, eff1, cursor) := FirstCursor(st, env);
    var slow := if env.elapsedMs > 100 then [LoggedSlow] else [];
    CountsOfOne(Executed(cursor.value));
    CountsOfConcat(eff1, [Executed(cursor.value)]);
    if slow != [] { CountsOfOne(LoggedSlow); }
    CountsOfConcat(eff1 + [Executed(cursor.value)], slow);
    FirstCursorCounts(st, env);
  }

  /** The cursor a successful first attempt returns, and the state after. */
  lemma SucceedsOn(st: DbState, env: ExecEnv)
    requires FirstOutcome(st, env).Succeeds?
    ensures var r := Execute(st, env);
      && (env.given.Some? ==> r.result == Ok(env.given.value) && r.state == st)
      && (env.given.None? ==>
            && ConnAfterFirstCursor(st, env).Some?
            && r.result == Ok(Cursor(ConnAfterFirstCursor(st, env).value, st.cursors))
            && r.state == DbState(ConnAfterFirstCursor(st, env), st.cursors + 1))
  {
    if env.given.None? {
      var g := GetConn(st, env.connect);
    }
  }

  /** Getting the first cursor runs nothing and closes no cursor. */
  lemma FirstCursorCounts(st: DbState, env: ExecEnv)
    ensures Attempts(FirstCursor(st, env).1) == 0 && CursorsClosed(FirstCursor(st, env).1) == 0
  {
    var cursor := FirstCursor(st, env).2;
    if env.given.None? {
      var g := GetConn(st, env.connect);
      if st.conn.None? { CountsOfOne(g.effects[0]); }
      if cursor.Some? {
        CountsOfOne(CursorOpened(cursor.value));
        CountsOfConcat(g.effects, [CursorOpened(cursor.value)]);
      }
    }
  }

  /** A first attempt that fails with AttributeError or OperationalError
      (or finds no connection to open a cursor on): the connection held is
      closed and dropped, a new one is made, and the statement runs exactly
      once more, on a fresh cursor, whose result is final. */
  lemma ExecuteTransient(st: DbState, env: ExecEnv)
    requires FirstOutcome(st, env).Raises? && Transient(FirstOutcome(st, env).error)
    ensures var r := Execute(st, env);
      var first := if FirstCursor(st, env).2.Some? then 1 else 0;
      && LoggedReconnect(FirstOutcome(st, env).error) in r.effects
      && (ConnAfterFirstCursor(st, env).Some? ==> ConnClosed(ConnAfterFirstCursor(st, env).value) in r.effects)
      && r.state.conn == ConnectDb(env.reconnect)
      && Attempts(r.effects) == first + (if env.reconnect.Connected? then 1 else 0)
      && CursorsClosed(r.effects) == 0
      && (env.reconnect.Refused? ==> r.result == Err(AttributeError))
      && (env.reconnect.Connected? ==>
            var c := Cursor(env.reconnect.conn, FirstCursor(st, env).0.cursors);
            && r.effects[|r.effects| - 1] == Executed(c)
            && (env.retry.Succeeds? ==> r.result == Ok(c))
            && (env.retry.Raises? ==> r.result == Err(env.retry.error)))
  {
    TransientTrace(st, env);
    TransientResult(st, env);
  }

  /** The trace of a transient failure: logged, the old connection closed,
      and one attempt more when the reconnect succeeds. */
  lemma TransientTrace(st: DbState, env: ExecEnv)
    requires FirstOutcome(st, env).Raises? && Transient(FirstOutcome(st, env).error)
    ensures var r := Execute(st, env);
      var first := if FirstCursor(st, env).2.Some? then 1 else 0;
      && LoggedReconnect(FirstOutcome(st, env).error) in r.effects
      && (ConnAfterFirstCursor(st, env).Some? ==> ConnClosed(ConnAfterFirstCursor(st, env).value) in r.effects)
      && Attempts(r.effects) == first + (if env.reconnect.Connected? then 1 else 0)
      && CursorsClosed(r.effects) == 0
  {
    var (st1, eff1, cursor) := FirstCursor(st, env);
    var e := FirstOutcome(st, env).error;
    var h := Reconnect(st1, e, env);
    ReconnectFacts(st1, e, env);
    FirstCursorCounts(st, env);
    var pre := if cursor.None? then eff1 else eff1 + [Executed(cursor.value)];
    RanCounts(eff1, cursor);
    assert Execute(st, env).effects == pre + h.effects;
    AppendReconnect(pre, h.effects, e, st1.conn);
  }

  /** The first attempt's trace, with the statement run when there was a
      cursor to run it on. */
  lemma RanCounts(eff: seq<Effect>, cursor: Option<Cursor>)
    requires Attempts(eff) == 0 && CursorsClosed(eff) == 0
    ensures var pre := if cursor.None? then eff else eff + [Executed(cursor.value)];
      Attempts(pre) == (if cursor.Some? then 1 else 0) && CursorsClosed(pre) == 0
  {
    if cursor.Some? {
      CountsOfOne(Executed(cursor.value));
      CountsOfConcat(eff, [Executed(cursor.value)]);
    }
  }

  /** A reconnect's trace `h` appended to `pre`: its log line and the
      closing of `conn` appear, and the counts add up. */
  lemma AppendReconnect(pre: seq<Effect>, h: seq<Effect>, e: DbError, conn: Option<Conn>)
    requires |h| >= 2 && h[0] == LoggedReconnect(e)
    requires conn.Some? ==> h[1] == ConnClosed(conn.value)
    ensures LoggedReconnect(e) in pre + h
    ensures conn.Some? ==> ConnClosed(conn.value) in pre + h
    ensures Attempts(pre + h) == Attempts(pre) + Attempts(h)
    ensures CursorsClosed(pre + h) == CursorsClosed(pre) + CursorsClosed(h)
  {
    CountsOfConcat(pre, h);
    assert (pre + h)[|pre|] == h[0];
    assert (pre + h)[|pre| + 1] == h[1];
  }

  /** After a transient failure the reconnect decides the connection and
      the result: the retry's own outcome, or AttributeError without a
      connection. */
  lemma TransientResult(st: DbState, env: ExecEnv)
    requires FirstOutcome(st, env).Raises? && Transient(FirstOutcome(st, env).error)
    ensures var r := Execute(st, env);
      && r.state.conn == ConnectDb(env.reconnect)
      && (env.reconnect.Refused? ==> r.result == Err(AttributeError))
      && (env.reconnect.Connected? ==>
            var c := Cursor(env.reconnect.conn, FirstCursor(st, env).0.cursors);
            && r.effects[|r.effects| - 1] == Executed(c)
            && (env.retry.Succeeds? ==> r.result == Ok(c))
            && (env.retry.Raises? ==> r.result == Err(env.retry.error)))
  {
    var (st1, eff1, cursor) := FirstCursor(st, env);
    ReconnectFacts(st1, FirstOutcome(st, env).error, env);
  }

  /** Any other first failure propagates unchanged after [DB_ERROR] is
      logged; there is no retry and the connection is kept. */
  lemma ExecuteOtherError(st: DbState, env: ExecEnv)
    requires FirstOutcome(st, env).Raises? && !Transient(FirstOutcome(st, env).error)
    ensures var r := Execute(st, env);
      && r.result == Err(FirstOutcome(st, env).error)
      && r.state == FirstCursor(st, env).0
      && r.state.conn == ConnAfterFirstCursor(st, env)
      && r.effects[|r.effects| - 1] == LoggedError(FirstOutcome(st, env).error)
      && Attempts(r.effects) == 1
      && CursorsClosed(r.effects) == 0
  {
    var (st1, eff1, cursor) := FirstCursor(st, env);
    var e := FirstOutcome(st, env).error;
    FirstCursorCounts(st, env);
    CountsOfOne(Executed(cursor.value));
    CountsOfOne(LoggedError(e));
    CountsOfConcat(eff1, [Executed(cursor.value)]);
    CountsOfConcat(eff1 + [Executed(cursor.value)], [LoggedError(e)]);
  }

  /** Whatever happens, `execute` makes at most two attempts, closes no
      cursor, and returns only a cursor the statement ran on. */
  lemma ExecuteAtMostTwice(st: DbState, env: ExecEnv)
    ensures var r := Execute(st, env);
      && Attempts(r.effects) <= 2
      && CursorsClosed(r.effects) == 0
      && (r.result.Ok? ==> Executed(r.result.value) in r.effects)
  {
    var o := FirstOutcome(st, env);
    if o.Succeeds? {
      ExecuteFirstSucceeds(st, env);
    } else if Transient(o.error) {
      ExecuteTransient(st, env);
    } else {
      ExecuteOtherError(st, env);
    }
  }

  // ---------------------------------------------------------------------
  // commit and rollback: best effort

  /** DB.commit: a no-op without a connection; an OperationalError drops
      the connection and is swallowed; any other error propagates. */
  function Commit(st: DbState, a: Attempt): (r: Out<()>)
    ensures st.conn.None? ==> r == Out(st, [], Ok(()))
    ensures st.conn.Some? ==> r.effects == [CommitCalled(st.conn.value)]
    ensures r.state.cursors == st.cursors
    ensures r.result.Err? <==> st.conn.Some? && a.Raises? && a.error != OperationalError
    ensures r.result.Err? ==> r.result.error == a.error
    ensures r.state.conn == (if st.conn.Some? && a == Raises(OperationalError) then None else st.conn)
  {
    if st.conn.None? then Out(st, [], Ok(()))
    else
      var eff := [CommitCalled(st.conn.value)];
      match a
      case Succeeds => Out(st, eff, Ok(()))
      case Raises(e) =>
        if e == OperationalError then Out(DbState(None, st.cursors), eff, Ok(()))
        else Out(st, eff, Err(e))
  }

  /** DB.rollback: same policy as commit. */
  function Rollback(st: DbState, a: Attempt): (r: Out<()>)
    ensures st.conn.None? ==> r == Out(st, [], Ok(()))
    ensures st.conn.Some? ==> r.effects == [RollbackCalled(st.conn.value)]
    ensures r.state.cursors == st.cursors
    ensures r.result.Err? <==> st.conn.Some? && a.Raises? && a.error != OperationalError
    ensures r.result.Err? ==> r.result.error == a.error
    ensures r.state.conn == (if st.conn.Some? && a == Raises(OperationalError) then None else st.conn)
  {
    if st.conn.None? then Out(st, [], Ok(()))
    else
      var eff := [RollbackCalled(st.conn.value)];
      match a
      case Succeeds => Out(st, eff, Ok(()))
      case Raises(e) =>
        if e == OperationalError then Out(DbState(None, st.cursors), eff, Ok(()))
        else Out(st, eff, Err(e))
  }

  // ---------------------------------------------------------------------
  // insert and update

  /** The `except IntegrityError` handler shared by insert and update: roll
      back and return None, unless rollback itself raises. */
  function Swallow(st: DbState, rollback: Attempt): Out<Option<nat>>
  {
    var rb := Rollback(st, rollback);
    Out(rb.state, rb.effects, if rb.result.Ok? then Ok(None) else Err(rb.result.error))
  }

  /** DB.insert: read `lastrowid`, commit, return the id. */
  function Insert(st: DbState, env: WriteEnv): Out<Option<nat>>
  {
    InsertAfter(Execute(st, env.exec), env)
  }

  /** The rest of insert, once `execute` has given `ex`. */
  function InsertAfter(ex: Out<Cursor>, env: WriteEnv): Out<Option<nat>>
  {
    match ex.result
    case Err(e) =>
      if e == IntegrityError then
        var h := Swallow(ex.state, env.rollback);
        Out(h.state, ex.effects + h.effects, h.result)
      else Out(ex.state, ex.effects, Err(e))
    case Ok(c) =>
      var k := InsertCommit(ex.state, env);
      Out(k.state, ex.effects + [LastRowIdRead(c)] + k.effects + [CursorClosed(c)], k.result)
  }

  /** insert after reading the id: commit and return it; an IntegrityError
      from the commit is rolled back. */
  function InsertCommit(st: DbState, env: WriteEnv): Out<Option<nat>>
  {
    var cm := Commit(st, env.commit);
    if cm.result.Err? && cm.result.error == IntegrityError then
      var h := Swallow(cm.state, env.rollback);
      Out(h.state, cm.effects + h.effects, h.result)
    else Out(cm.state, cm.effects, if cm.result.Ok? then Ok(Some(env.lastRowId)) else Err(cm.result.error))
  }

  /** DB.update: commit, then read `rowcount`. */
  function Update(st: DbState, env: WriteEnv): Out<Option<nat>>
  {
    UpdateAfter(Execute(st, env.exec), env)
  }

  /** The rest of update, once `execute` has given `ex`. */
  function UpdateAfter(ex: Out<Cursor>, env: WriteEnv): Out<Option<nat>>
  {
    match ex.result
    case Err(e) =>
      if e == IntegrityError then
        var h := Swallow(ex.state, env.rollback);
        Out(h.state, ex.effects + h.effects, h.result)
      else Out(ex.state, ex.effects, Err(e))
    case Ok(c) =>
      var k := UpdateCommit(ex.state, c, env);
      Out(k.state, ex.effects + k.effects + [CursorClosed(c)], k.result)
  }

  /** update after `execute` returned `c`: commit, then read the row count;
      an IntegrityError from the commit is rolled back. */
  function UpdateCommit(st: DbState, c: Cursor, env: WriteEnv): Out<Option<nat>>
  {
    var cm := Commit(st, env.commit);
    if cm.result.Ok? then Out(cm.state, cm.effects + [RowCountRead(c)], Ok(Some(env.rowCount)))
    else if cm.result.error == IntegrityError then
      var h := Swallow(cm.state, env.rollback);
      Out(h.state, cm.effects + h.effects, h.result)
    else Out(cm.state, cm.effects, Err(cm.result.error))
  }

  /** True when an insert or update ends in its `except IntegrityError`
      handler: `execute` or `commit` raised IntegrityError. */
  predicate HitsIntegrity(st: DbState, env: WriteEnv)
  {
    var ex := Execute(st, env.exec);
    || ex.result == Err(IntegrityError)
    || (ex.result.Ok? && Commit(ex.state, env.commit).result == Err(IntegrityError))
  }

  /** The state the `except IntegrityError` handler rolls back in. */
  function IntegrityState(st: DbState, env: WriteEnv): DbState
  {
    var ex := Execute(st, env.exec);
    if ex.result.Ok? then Commit(ex.state, env.commit).state else ex.state
  }

  /** Effects of a rollback never include closing a cursor, running a
      statement or reading a row count. */
  lemma SwallowFacts(st: DbState, a: Attempt)
    ensures var h := Swallow(st, a);
      && Attempts(h.effects) == 0 && CursorsClosed(h.effects) == 0
      && (h.result.Ok? ==> h.result.value.None?)
      && forall x | x in h.effects :: x.RollbackCalled?
  {
    if st.conn.Some? { CountsOfOne(RollbackCalled(st.conn.value)); }
  }

  lemma CommitCounts(st: DbState, a: Attempt)
    ensures Attempts(Commit(st, a).effects) == 0 && CursorsClosed(Commit(st, a).effects) == 0
    ensures forall x | x in Commit(st, a).effects :: x.CommitCalled?
  {
    if st.conn.Some? { CountsOfOne(CommitCalled(st.conn.value)); }
  }

  /** insert returns the row id exactly when the statement ran and the
      commit did not raise; an IntegrityError from either is rolled back
      and gives None; every other error propagates unchanged. */
  lemma InsertResult(st: DbState, env: WriteEnv)
    ensures var ex := Execute(st, env.exec);
      var r := Insert(st, env);
      && (r.result == Ok(Some(env.lastRowId)) <==> ex.result.Ok? && Commit(ex.state, env.commit).result.Ok?)
      && (r.result.Ok? && r.result.value.Some? ==> r.result.value.value == env.lastRowId)
      && (r.result.Ok? && r.result.value.None? ==> HitsIntegrity(st, env))
      && (HitsIntegrity(st, env) ==> r.result == Swallow(IntegrityState(st, env), env.rollback).result)
      && (ex.result.Err? && ex.result.error != IntegrityError ==> r == Out(ex.state, ex.effects, Err(ex.result.error)))
  {
    var ex := Execute(st, env.exec);
    SwallowFacts(ex.state, env.rollback);
    if ex.result.Ok? {
      SwallowFacts(Commit(ex.state, env.commit).state, env.rollback);
    }
  }

  /** insert reads the id before it issues the commit, closes the cursor
      last, exactly when `execute` returned one, and runs the statement no
      more often than `execute` did. */
  lemma InsertTrace(st: DbState, env: WriteEnv)
    ensures var ex := Execute(st, env.exec);
      var r := Insert(st, env);
      && CursorsClosed(r.effects) == (if ex.result.Ok? then 1 else 0)
      && Attempts(r.effects) == Attempts(ex.effects)
      && (ex.result.Ok? ==>
            && r.effects[..|ex.effects| + 1] == ex.effects + [LastRowIdRead(ex.result.value)]
            && r.effects[|r.effects| - 1] == CursorClosed(ex.result.value))
  {
    ExecuteAtMostTwice(st, env.exec);
    InsertAfterTrace(Execute(st, env.exec), env);
  }

  lemma InsertAfterTrace(ex: Out<Cursor>, env: WriteEnv)
    requires CursorsClosed(ex.effects) == 0
    ensures var r := InsertAfter(ex, env);
      && CursorsClosed(r.effects) == (if ex.result.Ok? then 1 else 0)
      && Attempts(r.effects) == Attempts(ex.effects)
      && (ex.result.Ok? ==>
            && r.effects[..|ex.effects| + 1] == ex.effects + [LastRowIdRead(ex.result.value)]
            && r.effects[|r.effects| - 1] == CursorClosed(ex.result.value))
  {
    if ex.result.Err? {
      var h := Swallow(ex.state, env.rollback);
      SwallowFacts(ex.state, env.rollback);
      CountsOfConcat(ex.effects, h.effects);
    } else {
      var c := ex.result.value;
      var k := InsertCommit(ex.state, env);
      InsertCommitCounts(ex.state, env);
      var read := ex.effects + [LastRowIdRead(c)];
      assert Attempts(read) == Attempts(ex.effects) && CursorsClosed(read) == 0 by {
        CountsOfOne(LastRowIdRead(c));
        CountsOfConcat(ex.effects, [LastRowIdRead(c)]);
      }
      assert Attempts(read + k.effects) == Attempts(ex.effects) && CursorsClosed(read + k.effects) == 0 by {
        CountsOfConcat(read, k.effects);
      }
      CountsOfOne(CursorClosed(c));
      CountsOfConcat(read + k.effects, [CursorClosed(c)]);
      assert (read + k.effects + [CursorClosed(c)])[..|ex.effects| + 1] == read;
    }
  }

  lemma InsertCommitCounts(st: DbState, env: WriteEnv)
    ensures Attempts(InsertCommit(st, env).effects) == 0 && CursorsClosed(InsertCommit(st, env).effects) == 0
  {
    var cm := Commit(st, env.commit);
    CommitCounts(st, env.commit);
    SwallowFacts(cm.state, env.rollback);
    CountsOfConcat(cm.effects, Swallow(cm.state, env.rollback).effects);
  }

  /** update returns the row count exactly when the statement ran and the
      commit did not raise; an IntegrityError from either is rolled back
      and gives None; every other error propagates unchanged. */
  lemma UpdateResult(st: DbState, env: WriteEnv)
    ensures var ex := Execute(st, env.exec);
      var r := Update(st, env);
      && (r.result == Ok(Some(env.rowCount)) <==> ex.result.Ok? && Commit(ex.state, env.commit).result.Ok?)
      && (r.result.Ok? && r.result.value.Some? ==> r.result.value.value == env.rowCount)
      && (r.result.Ok? && r.result.value.None? ==> HitsIntegrity(st, env))
      && (HitsIntegrity(st, env) ==> r.result == Swallow(IntegrityState(st, env), env.rollback).result)
      && (ex.result.Err? && ex.result.error != IntegrityError ==> r == Out(ex.state, ex.effects, Err(ex.result.error)))
  {
    var ex := Execute(st, env.exec);
    SwallowFacts(ex.state, env.rollback);
    if ex.result.Ok? {
      SwallowFacts(Commit(ex.state, env.commit).state, env.rollback);
    }
  }

  /** update issues the commit before it reads the row count, reads the
      count only after a commit that did not raise, closes the cursor
      last, exactly when `execute` returned one, and runs the statement no
      more often than `execute` did. */
  lemma UpdateTrace(st: DbState, env: WriteEnv)
    ensures var ex := Execute(st, env.exec);
      var r := Update(st, env);
      && CursorsClosed(r.effects) == (if ex.result.Ok? then 1 else 0)
      && Attempts(r.effects) == Attempts(ex.effects)
      && (ex.result.Ok? ==>
            var cm := Commit(ex.state, env.commit);
            && r.effects[..|ex.effects| + |cm.effects|] == ex.effects + cm.effects
            && (RowCountRead(ex.result.value) in r.effects <==> cm.result.Ok?)
            && r.effects[|r.effects| - 1] == CursorClosed(ex.result.value))
  {
    ExecuteAtMostTwice(st, env.exec);
    ExecuteReadsNoCount(st, env.exec);
    UpdateAfterTrace(Execute(st, env.exec), env);
  }

  lemma UpdateAfterTrace(ex: Out<Cursor>, env: WriteEnv)
    requires CursorsClosed(ex.effects) == 0
    requires forall x | x in ex.effects :: !x.RowCountRead?
    ensures var r := UpdateAfter(ex, env);
      && CursorsClosed(r.effects) == (if ex.result.Ok? then 1 else 0)
      && Attempts(r.effects) == Attempts(ex.effects)
      && (ex.result.Ok? ==>
            var cm := Commit(ex.state, env.commit);
            && r.effects[..|ex.effects| + |cm.effects|] == ex.effects + cm.effects
            && (RowCountRead(ex.result.value) in r.effects <==> cm.result.Ok?)
            && r.effects[|r.effects| - 1] == CursorClosed(ex.result.value))
  {
    if ex.result.Err? {
      var h := Swallow(ex.state, env.rollback);
      SwallowFacts(ex.state, env.rollback);
      CountsOfConcat(ex.effects, h.effects);
    } else {
      UpdateAfterCommitTrace(ex, env);
    }
  }

  /** After a cursor was returned: the commit's trace, the row count read
      only when the commit went through, and the cursor closed last. */
  lemma UpdateAfterCommitTrace(ex: Out<Cursor>, env: WriteEnv)
    requires ex.result.Ok? && CursorsClosed(ex.effects) == 0
    requires forall x | x in ex.effects :: !x.RowCountRead?
    ensures var r := UpdateAfter(ex, env);
      var cm := Commit(ex.state, env.commit);
      && CursorsClosed(r.effects) == 1
      && Attempts(r.effects) == Attempts(ex.effects)
      && r.effects[..|ex.effects| + |cm.effects|] == ex.effects + cm.effects
      && (RowCountRead(ex.result.value) in r.effects <==> cm.result.Ok?)
      && r.effects[|r.effects| - 1] == CursorClosed(ex.result.value)
  {
    var c := ex.result.value;
    var cm := Commit(ex.state, env.commit);
    var k := UpdateCommit(ex.state, c, env);
    UpdateCommitFacts(ex.state, c, env);
    assert UpdateAfter(ex, env).effects == ex.effects + k.effects + [CursorClosed(c)];
    ClosedAfter(ex.effects, k.effects, cm.effects, c);
  }

  /** Appending a commit trace `k` (which starts with `cm`, runs nothing and
      closes nothing) and then closing `c`. */
  lemma ClosedAfter(e: seq<Effect>, k: seq<Effect>, cm: seq<Effect>, c: Cursor)
    requires CursorsClosed(e) == 0 && Attempts(k) == 0 && CursorsClosed(k) == 0
    requires |k| >= |cm| && k[..|cm|] == cm
    requires forall x | x in e :: !x.RowCountRead?
    ensures var r := e + k + [CursorClosed(c)];
      && CursorsClosed(r) == 1 && Attempts(r) == Attempts(e)
      && r[..|e| + |cm|] == e + cm
      && (RowCountRead(c) in r <==> RowCountRead(c) in k)
      && r[|r| - 1] == CursorClosed(c)
  {
    CountsOfConcat(e, k);
    CountsOfOne(CursorClosed(c));
    CountsOfConcat(e + k, [CursorClosed(c)]);
    var r := e + k + [CursorClosed(c)];
    assert r[..|e| + |cm|] == e + k[..|cm|];
    assert RowCountRead(c) in r <==> RowCountRead(c) in k;
  }

  lemma UpdateCommitFacts(st: DbState, c: Cursor, env: WriteEnv)
    ensures var cm := Commit(st, env.commit);
      var k := UpdateCommit(st, c, env);
      && Attempts(k.effects) == 0 && CursorsClosed(k.effects) == 0
      && |k.effects| >= |cm.effects| && k.effects[..|cm.effects|] == cm.effects
      && (RowCountRead(c) in k.effects <==> cm.result.Ok?)
  {
    var cm := Commit(st, env.commit);
    CommitCounts(st, env.commit);
    SwallowFacts(cm.state, env.rollback);
    if cm.result.Ok? {
      CountsOfOne(RowCountRead(c));
      CountsOfConcat(cm.effects, [RowCountRead(c)]);
      assert (cm.effects + [RowCountRead(c)])[..|cm.effects|] == cm.effects;
    } else if cm.result.error == IntegrityError {
      var h := Swallow(cm.state, env.rollback);
      CountsOfConcat(cm.effects, h.effects);
      assert (cm.effects + h.effects)[..|cm.effects|] == cm.effects;
    }
  }

  /** `execute` never reads a row count and never fetches rows. */
  lemma ExecuteReadsNoCount(st: DbState, env: ExecEnv)
    ensures forall x | x in Execute(st, env).effects :: !x.RowCountRead? && !x.RowsFetched?
  {
    FirstCursorReadsNothing(st, env);
    ReconnectReadsNothing(FirstCursor(st, env).0, AttributeError, env);
    if FirstOutcome(st, env).Raises? {
      ReconnectReadsNothing(FirstCursor(st, env).0, FirstOutcome(st, env).error, env);
    }
  }

  lemma FirstCursorReadsNothing(st: DbState, env: ExecEnv)
    ensures forall x | x in FirstCursor(st, env).1 :: !x.RowCountRead? && !x.RowsFetched?
  {
  }

  lemma ReconnectReadsNothing(st: DbState, e: DbError, env: ExecEnv)
    ensures forall x | x in Reconnect(st, e, env).effects :: !x.RowCountRead? && !x.RowsFetched?
  {
  }

  // ---------------------------------------------------------------------
  // queries

  /** DB.query_all: fetch the rows from the cursor `execute` returned; if
      `execute` raised, the same error surfaces and nothing is fetched from
      or closed on a missing cursor. */
  function QueryAll(st: DbState, env: QueryEnv): (r: Out<seq<Row>>)
    ensures r.state == Execute(st, env.exec).state
    ensures r.result.Ok? <==> Execute(st, env.exec).result.Ok?
    ensures r.result.Ok? ==> r.result.value == env.rows
    ensures r.result.Err? ==>
      && r.result.error == Execute(st, env.exec).result.error
      && r.effects == Execute(st, env.exec).effects
      && CursorsClosed(r.effects) == 0
      && forall x | x in r.effects :: !x.RowsFetched?
    ensures r.result.Ok? ==>
      var c := Execute(st, env.exec).result.value;
      r.effects == Execute(st, env.exec).effects + [RowsFetched(c), CursorClosed(c)]
  {
    var ex := Execute(st, env.exec);
    ExecuteAtMostTwice(st, env.exec);
    ExecuteReadsNoCount(st, env.exec);
    match ex.result
    case Err(e) => Out(ex.state, ex.effects, Err(e))
    case Ok(c) => Out(ex.state, ex.effects + [RowsFetched(c), CursorClosed(c)], Ok(env.rows))
  }

  /** DB.query_one: the first row, or None when there is none. */
  function QueryOne(st: DbState, env: QueryEnv): (r: Out<Option<Row>>)
    ensures r.result.Err? <==> QueryAll(st, env).result.Err?
    ensures r.result.Err? ==> r.result.error == QueryAll(st, env).result.error
    ensures r.result.Ok? ==> (r.result.value.None? <==> env.rows == [])
    ensures r.result.Ok? && env.rows != [] ==> r.result.value == Some(env.rows[0])
    ensures r.state == QueryAll(st, env).state && r.effects == QueryAll(st, env).effects
  {
    var q := QueryAll(st, env);
    match q.result
    case Err(e) => Out(q.state, q.effects, Err(e))
    case Ok(rows) => Out(q.state, q.effects, Ok(if rows != [] then Some(rows[0]) else None))
  }

  /** The first column of each row. */
  function FirstColumn(rows: seq<Row>): (col: seq<string>)
    ensures |col| == |rows|
    ensures forall i | 0 <= i < |rows| :: col[i] == rows[i][0]
  {
    if rows == [] then [] else [rows[0][0]] + FirstColumn(rows[1..])
  }

  /** DB.query_column: the first element of each row, `[]` when no rows. */
  function QueryColumn(st: DbState, env: QueryEnv): (r: Out<seq<string>>)
    ensures r.result.Err? <==> QueryAll(st, env).result.Err?
    ensures r.result.Err? ==> r.result.error == QueryAll(st, env).result.error
    ensures r.result.Ok? ==>
      && |r.result.value| == |env.rows|
      && forall i | 0 <= i < |env.rows| :: r.result.value[i] == env.rows[i][0]
    ensures r.state == QueryAll(st, env).state && r.effects == QueryAll(st, env).effects
  {
    var q := QueryAll(st, env);
    match q.result
    case Err(e) => Out(q.state, q.effects, Err(e))
    case Ok(rows) => Out(q.state, q.effects, Ok(if rows != [] then FirstColumn(rows) else []))
  }
}
