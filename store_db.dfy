/** The `DB` object of rrd/store.py: the same operations as module Store,
    performed in place on the object's fields. */
module StoreDb {
  import opened Common
  import opened Store

  /** A `DB` instance. `effects` is everything it has done so far; each
      method performs its operation in place and is proved to agree with
      the function of the same name in module Store. */
  class DB {
    var conn: Option<Conn>
    var cursors: nat
    var effects: seq<Effect>

    function State(): DbState
      reads this
    {
      DbState(conn, cursors)
    }

    /** A fresh wrapper holds no connection. */
    constructor ()
      ensures conn.None? && cursors == 0 && effects == []
    {
      conn := None;
      cursors := 0;
      effects := [];
    }

    method GetConn(c: Connecting) returns (r: Option<Conn>)
      modifies this
      ensures var o := Store.GetConn(old(State()), c);
        State() == o.state && effects == old(effects) + o.effects && r == o.result.value
    {
      if conn.None? {
        conn := ConnectDb(c);
        effects := effects + [ConnectCalled(conn)];
      }
      r := conn;
    }

    /** The except-handler of `execute` for a transient failure `e`. */
    method Reconnect(e: DbError, env: ExecEnv) returns (r: Result<Cursor, DbError>)
      modifies this
      ensures var o := Store.Reconnect(old(State()), e, env);
        State() == o.state && effects == old(effects) + o.effects && r == o.result
    {
      effects := effects + [LoggedReconnect(e)];
      if conn.Some? {
        effects := effects + [ConnClosed(conn.value)];
      }
      conn := None;
      var renewed := GetConn(env.reconnect);
      if renewed.None? {
        return Err(AttributeError);
      }
      var cursor := Cursor(renewed.value, cursors);
      cursors := cursors + 1;
      effects := effects + [CursorOpened(cursor), Executed(cursor)];
      r := if env.retry.Succeeds? then Ok(cursor) else Err(env.retry.error);
    }

    /** The cursor the first attempt runs on: the caller's, or a new one
        of the connection `get_conn` gives; None without a connection. */
    method FirstCursor(env: ExecEnv) returns (cursor: Option<Cursor>)
      modifies this
      ensures var f := Store.FirstCursor(old(State()), env);
        State() == f.0 && effects == old(effects) + f.1 && cursor == f.2
    {
      cursor := env.given;
      if cursor.None? {
        var c := GetConn(env.connect);
        if c.Some? {
          cursor := Some(Cursor(c.value, cursors));
          cursors := cursors + 1;
          effects := effects + [CursorOpened(cursor.value)];
        }
      }
    }

    method Execute(env: ExecEnv) returns (r: Result<Cursor, DbError>)
      modifies this
      ensures var o := Store.Execute(old(State()), env);
        State() == o.state && effects == old(effects) + o.effects && r == o.result
    {
      ghost var eff0 := effects;
      var cursor := FirstCursor(env);
      ghost var eff1 := effects[|eff0|..];
      assert effects == eff0 + eff1;
      if cursor.None? {
        r := Reconnect(AttributeError, env);
        assert effects == eff0 + (eff1 + effects[|eff0| + |eff1|..]);
        return;
      }
      effects := effects + [Executed(cursor.value)];
      if env.first.Succeeds? {
        if env.elapsedMs > 100 {
          effects := effects + [LoggedSlow];
          assert effects == eff0 + (eff1 + [Executed(cursor.value)] + [LoggedSlow]);
        } else {
          assert effects == eff0 + (eff1 + [Executed(cursor.value)]);
        }
        return Ok(cursor.value);
      }
      var failure := env.first.error;
      ghost var ran := effects;
      if Transient(failure) {
        r := Reconnect(failure, env);
        assert effects == eff0 + (eff1 + [Executed(cursor.value)] + effects[|ran|..]);
      } else {
        effects := effects + [LoggedError(failure)];
        r := Err(failure);
        assert effects == eff0 + (eff1 + [Executed(cursor.value)] + [LoggedError(failure)]);
      }
    }

    method Commit(a: Attempt) returns (r: Result<(), DbError>)
      modifies this
      ensures var o := Store.Commit(old(State()), a);
        State() == o.state && effects == old(effects) + o.effects && r == o.result
    {
      r := Ok(());
      if conn.Some? {
        effects := effects + [CommitCalled(conn.value)];
        if a.Raises? {
          if a.error == OperationalError {
            conn := None;
          } else {
            r := Err(a.error);
          }
        }
      }
    }

    method Rollback(a: Attempt) returns (r: Result<(), DbError>)
      modifies this
      ensures var o := Store.Rollback(old(State()), a);
        State() == o.state && effects == old(effects) + o.effects && r == o.result
    {
      r := Ok(());
      if conn.Some? {
        effects := effects + [RollbackCalled(conn.value)];
        if a.Raises? {
          if a.error == OperationalError {
            conn := None;
          } else {
            r := Err(a.error);
          }
        }
      }
    }

    /** The `except IntegrityError` handler. */
    method Swallow(a: Attempt) returns (r: Result<Option<nat>, DbError>)
      modifies this
      ensures var o := Store.Swallow(old(State()), a);
        State() == o.state && effects == old(effects) + o.effects && r == o.result
    {
      var rb := Rollback(a);
      r := if rb.Ok? then Ok(None) else Err(rb.error);
    }

    method Insert(env: WriteEnv) returns (r: Result<Option<nat>, DbError>)
      modifies this
      ensures var o := Store.Insert(old(State()), env);
        State() == o.state && effects == old(effects) + o.effects && r == o.result
    {
      var ex := Execute(env.exec);
      if ex.Err? {
        if ex.error == IntegrityError {
          r := Swallow(env.rollback);
        } else {
          r := Err(ex.error);
        }
        return;
      }
      var cursor := ex.value;
      effects := effects + [LastRowIdRead(cursor)];
      var cm := Commit(env.commit);
      if cm.Ok? {
        r := Ok(Some(env.lastRowId));
      } else if cm.error == IntegrityError {
        r := Swallow(env.rollback);
      } else {
        r := Err(cm.error);
      }
      effects := effects + [CursorClosed(cursor)];
    }

    method Update(env: WriteEnv) returns (r: Result<Option<nat>, DbError>)
      modifies this
      ensures var o := Store.Update(old(State()), env);
        State() == o.state && effects == old(effects) + o.effects && r == o.result
    {
      var ex := Execute(env.exec);
      if ex.Err? {
        if ex.error == IntegrityError {
          r := Swallow(env.rollback);
        } else {
          r := Err(ex.error);
        }
        return;
      }
      var cursor := ex.value;
      var cm := Commit(env.commit);
      if cm.Ok? {
        effects := effects + [RowCountRead(cursor)];
        r := Ok(Some(env.rowCount));
      } else if cm.error == IntegrityError {
        r := Swallow(env.rollback);
      } else {
        r := Err(cm.error);
      }
      effects := effects + [CursorClosed(cursor)];
    }

    method QueryAll(env: QueryEnv) returns (r: Result<seq<Row>, DbError>)
      modifies this
      ensures var o := Store.QueryAll(old(State()), env);
        State() == o.state && effects == old(effects) + o.effects && r == o.result
    {
      var ex := Execute(env.exec);
      if ex.Err? {
        return Err(ex.error);
      }
      effects := effects + [RowsFetched(ex.value), CursorClosed(ex.value)];
      r := Ok(env.rows);
    }

    method QueryOne(env: QueryEnv) returns (r: Result<Option<Row>, DbError>)
      modifies this
      ensures var o := Store.QueryOne(old(State()), env);
        State() == o.state && effects == old(effects) + o.effects && r == o.result
    {
      var rows := QueryAll(env);
      if rows.Err? {
        return Err(rows.error);
      }
      r := Ok(if rows.value != [] then Some(rows.value[0]) else None);
    }

    method QueryColumn(env: QueryEnv) returns (r: Result<seq<string>, DbError>)
      modifies this
      ensures var o := Store.QueryColumn(old(State()), env);
        State() == o.state && effects == old(effects) + o.effects && r == o.result
    {
      var rows := QueryAll(env);
      if rows.Err? {
        return Err(rows.error);
      }
      var column := [];
      var i := 0;
      while i < |rows.value|
        invariant 0 <= i <= |rows.value|
        invariant column == FirstColumn(rows.value[..i])
      {
        column := column + [rows.value[i][0]];
        i := i + 1;
      }
      assert rows.value[..i] == rows.value;
      r := Ok(column);
    }
  }
}
