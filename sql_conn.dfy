/**
 * The MySQL connection wrapper (sqlutils/sql_conn.cpp): four fixed
 * statement templates filled in by snprintf into a 1024-byte buffer behind a
 * length guard, and a two-field connection state.
 *
 * C strings are `Option<string>` (None is a null pointer); the MySQL client
 * is an oracle whose answers (does mysql_init allocate, does the connect or
 * the query succeed) are parameters.
 */
module SqlConn {
  import opened Errors

  /** A printf template with only `%s` conversions: literal text and argument slots. */
  datatype Piece = Lit(text: string) | Arg

  /** The four statement templates of the source. */
  const InsertFmt: seq<Piece> := [Lit("insert into "), Arg, Lit(" value("), Arg, Lit(");")]
  const SelectFmt: seq<Piece> := [Lit("select "), Arg, Lit(" from "), Arg, Lit(" where("), Arg, Lit(");")]
  const UpdateFmt: seq<Piece> := [Lit("update "), Arg, Lit(" set "), Arg, Lit(" where("), Arg, Lit(");")]
  const DeleteFmt: seq<Piece> := [Lit("delete from "), Arg, Lit(" where("), Arg, Lit(")")]

  /** SQL_BUF_LEN: the size of each statement buffer. */
  const SqlBufLen: nat := 1024

  // ---------------------------------------------------------------------
  // Formatting
  // ---------------------------------------------------------------------

  /** The format string as written in C: each slot is `%s`. */
  function Render(fmt: seq<Piece>): string {
    if fmt == [] then []
    else (match fmt[0] case Lit(s) => s case Arg => "%s") + Render(fmt[1..])
  }

  /** The templates spell the source's format strings; strlen counts 2 per slot. */
  lemma SelectFmtIsSource()
    ensures Render(SelectFmt) == "select %s from %s where(%s);" && |Render(SelectFmt)| == 28
  {
    RenderCons(Lit(");"), []);
    RenderCons(Arg, [Lit(");")]);
    RenderCons(Lit(" where("), [Arg, Lit(");")]);
    RenderCons(Arg, [Lit(" where("), Arg, Lit(");")]);
    RenderCons(Lit(" from "), [Arg, Lit(" where("), Arg, Lit(");")]);
    RenderCons(Arg, [Lit(" from "), Arg, Lit(" where("), Arg, Lit(");")]);
    RenderCons(Lit("select "), [Arg, Lit(" from "), Arg, Lit(" where("), Arg, Lit(");")]);
    assert [Lit("select ")] + [Arg, Lit(" from "), Arg, Lit(" where("), Arg, Lit(");")] == SelectFmt;
  }

  lemma InsertFmtIsSource()
    ensures Render(InsertFmt) == "insert into %s value(%s);" && |Render(InsertFmt)| == 25
  {
    RenderCons(Lit(");"), []);
    RenderCons(Arg, [Lit(");")]);
    RenderCons(Lit(" value("), [Arg, Lit(");")]);
    RenderCons(Arg, [Lit(" value("), Arg, Lit(");")]);
    RenderCons(Lit("insert into "), [Arg, Lit(" value("), Arg, Lit(");")]);
    assert [Lit("insert into ")] + [Arg, Lit(" value("), Arg, Lit(");")] == InsertFmt;
  }

  lemma UpdateFmtIsSource()
    ensures Render(UpdateFmt) == "update %s set %s where(%s);" && |Render(UpdateFmt)| == 27
  {
    RenderCons(Lit(");"), []);
    RenderCons(Arg, [Lit(");")]);
    RenderCons(Lit(" where("), [Arg, Lit(");")]);
    RenderCons(Arg, [Lit(" where("), Arg, Lit(");")]);
    RenderCons(Lit(" set "), [Arg, Lit(" where("), Arg, Lit(");")]);
    RenderCons(Arg, [Lit(" set "), Arg, Lit(" where("), Arg, Lit(");")]);
    RenderCons(Lit("update "), [Arg, Lit(" set "), Arg, Lit(" where("), Arg, Lit(");")]);
    assert [Lit("update ")] + [Arg, Lit(" set "), Arg, Lit(" where("), Arg, Lit(");")] == UpdateFmt;
  }

  lemma DeleteFmtIsSource()
    ensures Render(DeleteFmt) == "delete from %s where(%s)" && |Render(DeleteFmt)| == 24
  {
    RenderCons(Lit(")"), []);
    RenderCons(Arg, [Lit(")")]);
    RenderCons(Lit(" where("), [Arg, Lit(")")]);
    RenderCons(Arg, [Lit(" where("), Arg, Lit(")")]);
    RenderCons(Lit("delete from "), [Arg, Lit(" where("), Arg, Lit(")")]);
    assert [Lit("delete from ")] + [Arg, Lit(" where("), Arg, Lit(")")] == DeleteFmt;
  }

  lemma RenderCons(p: Piece, rest: seq<Piece>)
    ensures Render([p] + rest) == (match p case Lit(t) => t case Arg => "%s") + Render(rest)
  {
    assert ([p] + rest)[1..] == rest;
  }

  /** printf of a template: each slot takes the next argument. */
  function Format(fmt: seq<Piece>, args: seq<string>): string {
    if fmt == [] then []
    else match fmt[0]
      case Lit(s) => s + Format(fmt[1..], args)
      case Arg => if args == [] then Format(fmt[1..], args) else args[0] + Format(fmt[1..], args[1..])
  }

  lemma FormatLit(t: string, rest: seq<Piece>, args: seq<string>)
    ensures Format([Lit(t)] + rest, args) == t + Format(rest, args)
  {
    assert ([Lit(t)] + rest)[1..] == rest;
  }

  lemma FormatArg(a: string, rest: seq<Piece>, args: seq<string>)
    ensures Format([Arg] + rest, [a] + args) == a + Format(rest, args)
  {
    assert ([Arg] + rest)[1..] == rest;
    assert ([a] + args)[1..] == args;
  }

  /** snprintf(buf, size, ...) keeps at most size - 1 characters and a terminating NUL. */
  function Snprintf(size: nat, text: string): (r: string)
    requires size > 0
    ensures |r| <= size - 1 && |r| <= |text| && r == text[..|r|]
    ensures r == text <==> |text| <= size - 1
  {
    if |text| <= size - 1 then text else text[..size - 1]
  }

  /** The C string, or the default text the source substitutes for a null pointer. */
  function OrDefault(s: Option<string>, default: string): string {
    match s
    case Some(v) => v
    case None => default
  }

  /** strlen of an optional argument, or the length the source counts for a null one. */
  function LenOr(s: Option<string>, default: nat): nat {
    match s
    case Some(v) => |v|
    case None => default
  }

  // ---------------------------------------------------------------------
  // Statement text and the length each guard computes
  // ---------------------------------------------------------------------

  function SelectText(table: string, value: Option<string>, cond: Option<string>): string {
    Format(SelectFmt, [OrDefault(value, "*"), table, OrDefault(cond, "true")])
  }

  function InsertText(table: string, value: string): string {
    Format(InsertFmt, [table, value])
  }

  function UpdateText(table: string, value: string, cond: string): string {
    Format(UpdateFmt, [table, value, cond])
  }

  function DeleteText(table: string, cond: string): string {
    Format(DeleteFmt, [table, cond])
  }

  /**
   * The `uint32_t len` each routine computes: a sum of strlen results,
   * wrapped to 32 bits. Each `%s` of the format is counted as 2 characters,
   * so `len` is the length of the formatted text plus 2 per slot, less the
   * length of the arguments the slots stand for.
   */
  function SelectLen(table: string, value: Option<string>, cond: Option<string>): (len: uint32)
    ensures len == (|SelectText(table, value, cond)| + 6) % TwoTo32
  {
    SelectFmtIsSource();
    SelectTextIs(table, value, cond);
    (|Render(SelectFmt)| + |table| + LenOr(value, 1) + LenOr(cond, 4)) % TwoTo32
  }

  function InsertLen(table: string, value: string): (len: uint32)
    ensures len == (|InsertText(table, value)| + 4) % TwoTo32
  {
    InsertFmtIsSource();
    InsertTextIs(table, value);
    (|Render(InsertFmt)| + |table| + |value|) % TwoTo32
  }

  function UpdateLen(table: string, value: string, cond: string): (len: uint32)
    ensures len == (|UpdateText(table, value, cond)| + 6) % TwoTo32
  {
    UpdateFmtIsSource();
    UpdateTextIs(table, value, cond);
    (|Render(UpdateFmt)| + |table| + |value| + |cond|) % TwoTo32
  }

  function DeleteLen(table: string, cond: string): (len: uint32)
    ensures len == (|DeleteText(table, cond)| + 4) % TwoTo32
  {
    DeleteFmtIsSource();
    DeleteTextIs(table, cond);
    (|Render(DeleteFmt)| + |table| + |cond|) % TwoTo32
  }

  /** The select text is "select V from T where(C);" with `*` and `true` for a missing V and C. */
  lemma SelectTextIs(table: string, value: Option<string>, cond: Option<string>)
    ensures SelectText(table, value, cond)
      == "select " + (OrDefault(value, "*") + (" from " + (table + (" where(" + (OrDefault(cond, "true") + ");")))))
  {
    var v, c := OrDefault(value, "*"), OrDefault(cond, "true");
    assert SelectFmt == [Lit("select ")] + ([Arg] + ([Lit(" from ")] + ([Arg] + ([Lit(" where(")] + ([Arg] + [Lit(");")])))));
    FormatLit("select ", [Arg] + ([Lit(" from ")] + ([Arg] + ([Lit(" where(")] + ([Arg] + [Lit(");")])))), [v, table, c]);
    assert [v, table, c] == [v] + [table, c];
    FormatArg(v, [Lit(" from ")] + ([Arg] + ([Lit(" where(")] + ([Arg] + [Lit(");")]))), [table, c]);
    FormatLit(" from ", [Arg] + ([Lit(" where(")] + ([Arg] + [Lit(");")])), [table, c]);
    assert [table, c] == [table] + [c];
    FormatArg(table, [Lit(" where(")] + ([Arg] + [Lit(");")]), [c]);
    FormatLit(" where(", [Arg] + [Lit(");")], [c]);
    assert [c] == [c] + [];
    FormatArg(c, [Lit(");")], []);
    FormatLit(");", [], []);
  }

  lemma InsertTextIs(table: string, value: string)
    ensures InsertText(table, value) == "insert into " + (table + (" value(" + (value + ");")))
  {
    assert InsertFmt == [Lit("insert into ")] + ([Arg] + ([Lit(" value(")] + ([Arg] + [Lit(");")])));
    FormatLit("insert into ", [Arg] + ([Lit(" value(")] + ([Arg] + [Lit(");")])), [table, value]);
    assert [table, value] == [table] + [value];
    FormatArg(table, [Lit(" value(")] + ([Arg] + [Lit(");")]), [value]);
    FormatLit(" value(", [Arg] + [Lit(");")], [value]);
    assert [value] == [value] + [];
    FormatArg(value, [Lit(");")], []);
    FormatLit(");", [], []);
  }

  lemma UpdateTextIs(table: string, value: string, cond: string)
    ensures UpdateText(table, value, cond) == "update " + (table + (" set " + (value + (" where(" + (cond + ");")))))
  {
    assert UpdateFmt == [Lit("update ")] + ([Arg] + ([Lit(" set ")] + ([Arg] + ([Lit(" where(")] + ([Arg] + [Lit(");")])))));
    FormatLit("update ", [Arg] + ([Lit(" set ")] + ([Arg] + ([Lit(" where(")] + ([Arg] + [Lit(");")])))), [table, value, cond]);
    assert [table, value, cond] == [table] + [value, cond];
    FormatArg(table, [Lit(" set ")] + ([Arg] + ([Lit(" where(")] + ([Arg] + [Lit(");")]))), [value, cond]);
    FormatLit(" set ", [Arg] + ([Lit(" where(")] + ([Arg] + [Lit(");")])), [value, cond]);
    assert [value, cond] == [value] + [cond];
    FormatArg(value, [Lit(" where(")] + ([Arg] + [Lit(");")]), [cond]);
    FormatLit(" where(", [Arg] + [Lit(");")], [cond]);
    assert [cond] == [cond] + [];
    FormatArg(cond, [Lit(");")], []);
    FormatLit(");", [], []);
  }

  /** The delete text has no trailing semicolon. */
  lemma DeleteTextIs(table: string, cond: string)
    ensures DeleteText(table, cond) == "delete from " + (table + (" where(" + (cond + ")")))
    ensures DeleteText(table, cond)[|DeleteText(table, cond)| - 1] == ')'
  {
    assert DeleteFmt == [Lit("delete from ")] + ([Arg] + ([Lit(" where(")] + ([Arg] + [Lit(")")])));
    FormatLit("delete from ", [Arg] + ([Lit(" where(")] + ([Arg] + [Lit(")")])), [table, cond]);
    assert [table, cond] == [table] + [cond];
    FormatArg(table, [Lit(" where(")] + ([Arg] + [Lit(")")]), [cond]);
    FormatLit(" where(", [Arg] + [Lit(")")], [cond]);
    assert [cond] == [cond] + [];
    FormatArg(cond, [Lit(")")], []);
    FormatLit(")", [], []);
  }

  /**
   * Unless the 32-bit sum wraps, `len` overestimates the select text by
   * exactly 6 (the three `%s` and the `*`/`true` counted as 1 and 4), and
   * the select guard `len > 1024` lets through only text that snprintf
   * with size 1023 does not truncate.
   */
  lemma SelectGuardSound(table: string, value: Option<string>, cond: Option<string>)
    requires |Render(SelectFmt)| + |table| + LenOr(value, 1) + LenOr(cond, 4) < TwoTo32
    ensures SelectLen(table, value, cond) == |SelectText(table, value, cond)| + 6
    ensures SelectLen(table, value, cond) <= SqlBufLen ==>
      Snprintf(SqlBufLen - 1, SelectText(table, value, cond)) == SelectText(table, value, cond)
  {
    SelectFmtIsSource();
    SelectTextIs(table, value, cond);
  }

  /** Insert: `len` is the text length plus 4, and `len < 1024` means no truncation. */
  lemma InsertGuardSound(table: string, value: string)
    requires |Render(InsertFmt)| + |table| + |value| < TwoTo32
    ensures InsertLen(table, value) == |InsertText(table, value)| + 4
    ensures InsertLen(table, value) < SqlBufLen ==>
      Snprintf(SqlBufLen - 1, InsertText(table, value)) == InsertText(table, value)
  {
    InsertFmtIsSource();
    InsertTextIs(table, value);
  }

  /** Update: `len` is the text length plus 6, and `len < 1024` means no truncation. */
  lemma UpdateGuardSound(table: string, value: string, cond: string)
    requires |Render(UpdateFmt)| + |table| + |value| + |cond| < TwoTo32
    ensures UpdateLen(table, value, cond) == |UpdateText(table, value, cond)| + 6
    ensures UpdateLen(table, value, cond) < SqlBufLen ==>
      Snprintf(SqlBufLen - 1, UpdateText(table, value, cond)) == UpdateText(table, value, cond)
  {
    UpdateFmtIsSource();
    UpdateTextIs(table, value, cond);
  }

  /** Delete: `len` is the text length plus 4, and `len < 1024` means no truncation. */
  lemma DeleteGuardSound(table: string, cond: string)
    requires |Render(DeleteFmt)| + |table| + |cond| < TwoTo32
    ensures DeleteLen(table, cond) == |DeleteText(table, cond)| + 4
    ensures DeleteLen(table, cond) < SqlBufLen ==>
      Snprintf(SqlBufLen - 1, DeleteText(table, cond)) == DeleteText(table, cond)
  {
    DeleteFmtIsSource();
    DeleteTextIs(table, cond);
  }

  /** The calls the wrapper makes into the MySQL client. */
  datatype MysqlCall = Init | RealConnect | Close

  /**
   * MySqlConn: `handle` is `mSqlHandle != nullptr`, `sqlInit` is mSqlInit.
   * A statement routine returns its status and the text it passed to
   * mysql_query, if it got that far.
   */
  class MySqlConn {
    var handle: bool
    var sqlInit: bool

    /** The default constructor: mysql_init, which may fail to allocate. */
    constructor (initOk: bool)
      ensures handle == initOk && !sqlInit
    {
      handle := initOk;
      sqlInit := false;
    }

    /** The connecting constructor: it reports nothing, but sets sqlInit only when init and connect both succeed. */
    constructor Connecting(user: Option<string>, passwd: Option<string>, db: Option<string>, initOk: bool, connectOk: bool)
      ensures handle == initOk
      ensures sqlInit == (initOk && user.Some? && passwd.Some? && db.Some? && connectOk)
    {
      handle := initOk;
      sqlInit := false;
      if initOk && user.Some? && passwd.Some? && db.Some? && connectOk {
        sqlInit := true;
      }
    }

    /**
     * Checks, in order: a null credential (INVALID_PARAM), an open
     * connection (INVALID_OPERATION), a failed re-init of a missing handle
     * (NO_MEMORY), a failed connect (UNKNOWN_ERROR). Only success sets sqlInit.
     */
    method ConnectSql(user: Option<string>, passwd: Option<string>, db: Option<string>, initOk: bool, connectOk: bool)
      returns (r: Status, ghost calls: seq<MysqlCall>)
      modifies this
      ensures user.None? || passwd.None? || db.None? ==>
        r == InvalidParam && calls == [] && unchanged(this)
      ensures user.Some? && passwd.Some? && db.Some? && old(sqlInit) ==>
        r == InvalidOperation && calls == [] && unchanged(this)
      ensures user.Some? && passwd.Some? && db.Some? && !old(sqlInit) ==>
        var reinit := !old(handle);
        && handle == (old(handle) || initOk)
        && (reinit && !initOk ==> r == NoMemory && calls == [Init] && !sqlInit)
        && (!reinit || initOk ==>
              calls == (if reinit then [Init] else []) + [RealConnect]
              && r == (if connectOk then Ok else UnknownError)
              && sqlInit == connectOk)
      ensures r == Ok <==> (!old(sqlInit) && sqlInit)
    {
      calls := [];
      if user.None? || passwd.None? || db.None? {
        return InvalidParam, calls;
      }
      if sqlInit {
        return InvalidOperation, calls;
      }
      if !handle {
        calls := calls + [Init];
        handle := initOk;
        if !handle {
          return NoMemory, calls;
        }
      }
      calls := calls + [RealConnect];
      if !connectOk {
        return UnknownError, calls;
      }
      sqlInit := true;
      r := Ok;
    }

    /** mysql_close, then the handle is null and the flag is clear. */
    method CloseConn() returns (ghost calls: seq<MysqlCall>)
      modifies this
      ensures !handle && !sqlInit && calls == [Close]
    {
      calls := [Close];
      handle := false;
      sqlInit := false;
    }

    /** A null table first (INVALID_PARAM), then the connection flag (NO_INIT), then the length guard. */
    method SelectSql(table: Option<string>, value: Option<string>, cond: Option<string>, queryOk: bool)
      returns (r: Status, sent: Option<string>)
      ensures table.None? ==> r == InvalidParam && sent == None
      ensures table.Some? && !sqlInit ==> r == NoInit && sent == None
      ensures table.Some? && sqlInit ==>
        (if SelectLen(table.value, value, cond) > SqlBufLen then r == NoMemory && sent == None
         else sent == Some(Snprintf(SqlBufLen - 1, SelectText(table.value, value, cond)))
              && r == (if queryOk then Ok else UnknownError))
    {
      if table.None? {
        return InvalidParam, None;
      }
      if !sqlInit {
        return NoInit, None;
      }
      var len := SelectLen(table.value, value, cond);
      if len > SqlBufLen {
        return NoMemory, None;
      }
      sent := Some(Snprintf(SqlBufLen - 1, SelectText(table.value, value, cond)));
      r := if queryOk then Ok else UnknownError;
    }

    /** Arguments, then the length guard; the connection flag is never consulted. */
    method InsertSql(table: Option<string>, value: Option<string>, queryOk: bool)
      returns (r: Status, sent: Option<string>)
      ensures table.None? || value.None? ==> r == InvalidParam && sent == None
      ensures table.Some? && value.Some? ==>
        (if InsertLen(table.value, value.value) >= SqlBufLen then r == NoMemory && sent == None
         else sent == Some(Snprintf(SqlBufLen - 1, InsertText(table.value, value.value)))
              && r == (if queryOk then Ok else UnknownError))
    {
      if table.None? || value.None? {
        return InvalidParam, None;
      }
      var len := InsertLen(table.value, value.value);
      if len >= SqlBufLen {
        return NoMemory, None;
      }
      sent := Some(Snprintf(SqlBufLen - 1, InsertText(table.value, value.value)));
      r := if queryOk then Ok else UnknownError;
    }

    method UpdateSql(table: Option<string>, value: Option<string>, cond: Option<string>, queryOk: bool)
      returns (r: Status, sent: Option<string>)
      ensures table.None? || value.None? || cond.None? ==> r == InvalidParam && sent == None
      ensures table.Some? && value.Some? && cond.Some? ==>
        (if UpdateLen(table.value, value.value, cond.value) >= SqlBufLen then r == NoMemory && sent == None
         else sent == Some(Snprintf(SqlBufLen - 1, UpdateText(table.value, value.value, cond.value)))
              && r == (if queryOk then Ok else UnknownError))
    {
      if table.None? || value.None? || cond.None? {
        return InvalidParam, None;
      }
      var len := UpdateLen(table.value, value.value, cond.value);
      if len >= SqlBufLen {
        return NoMemory, None;
      }
      sent := Some(Snprintf(SqlBufLen - 1, UpdateText(table.value, value.value, cond.value)));
      r := if queryOk then Ok else UnknownError;
    }

    method DeleteSql(table: Option<string>, cond: Option<string>, queryOk: bool)
      returns (r: Status, sent: Option<string>)
      ensures table.None? || cond.None? ==> r == InvalidParam && sent == None
      ensures table.Some? && cond.Some? ==>
        (if DeleteLen(table.value, cond.value) >= SqlBufLen then r == NoMemory && sent == None
         else sent == Some(Snprintf(SqlBufLen - 1, DeleteText(table.value, cond.value)))
              && r == (if queryOk then Ok else UnknownError))
    {
      if table.None? || cond.None? {
        return InvalidParam, None;
      }
      var len := DeleteLen(table.value, cond.value);
      if len >= SqlBufLen {
        return NoMemory, None;
      }
      sent := Some(Snprintf(SqlBufLen - 1, DeleteText(table.value, cond.value)));
      r := if queryOk then Ok else UnknownError;
    }
  }

  /**
   * After CloseConn, a ConnectSql with valid credentials goes through
   * mysql_init again: when it cannot allocate, the connect fails with
   * NO_MEMORY before any connect call and the object stays closed;
   * otherwise the connect decides the outcome.
   */
  method ReconnectAfterClose(conn: MySqlConn, user: string, passwd: string, db: string, initOk: bool, connectOk: bool)
    returns (r: Status, ghost calls: seq<MysqlCall>)
    modifies conn
    ensures !initOk ==> calls == [Close, Init]
    ensures !initOk ==> r == NoMemory && !conn.handle && !conn.sqlInit
    ensures initOk ==> calls == [Close, Init, RealConnect]
    ensures initOk ==> r == (if connectOk then Ok else UnknownError) && conn.sqlInit == connectOk && conn.handle
  {
    var closing := conn.CloseConn();
    ghost var connecting;
    r, connecting := conn.ConnectSql(Some(user), Some(passwd), Some(db), initOk, connectOk);
    calls := closing + connecting;
  }
}
