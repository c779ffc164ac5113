/** An in-memory stand-in for the SQLite file the application writes: the
    two statement forms it issues (`CREATE TABLE IF NOT EXISTS` and
    `INSERT`), SQLite's NOT NULL checks and its rowid assignment for an
    `INTEGER PRIMARY KEY` column. The schema's FOREIGN KEY clauses are
    declared but, as in SQLite without `PRAGMA foreign_keys = ON`, never
    enforced, so they are not part of a table here. */
module SqlStore {
  import opened PySemantics

  datatype Value = Null | Integer(i: int) | Text(s: string)

  /** A declared column; `rowidAlias` marks the `INTEGER PRIMARY KEY` one. */
  datatype Column = Column(name: string, notNull: bool, rowidAlias: bool)

  /** A stored row: its rowid and one value per declared column, in the
      table's column order. */
  datatype Row = Row(rowid: int, cells: seq<Value>)

  /** A table's declared columns and its rows in insertion order. */
  datatype Table = Table(columns: seq<Column>, rows: seq<Row>)

  datatype Db = Db(tables: map<string, Table>)

  const EmptyDb: Db := Db(map[])

  /** One `column = value` pair of an INSERT's column and value lists. */
  datatype Assignment = Assign(column: string, value: Value)

  datatype Statement =
    | CreateTableIfNotExists(table: string, columns: seq<Column>)
    | Insert(table: string, assignments: seq<Assignment>)

  /** What the application reads back from a cursor. */
  datatype Cursor = Cursor(lastRowId: Option<int>)

  /** The `sqlite3.Error`s these statements can raise. */
  datatype SqlError =
    | NoSuchTable(table: string)
    | NoSuchColumn(table: string, column: string)
    | NotNullFailed(table: string, column: string)
    | UniqueFailed(table: string, column: string)
    | DatatypeMismatch(table: string, column: string)

  predicate HasColumn(columns: seq<Column>, name: string)
  {
    exists c | c in columns :: c.name == name
  }

  function ColumnNames(columns: seq<Column>): set<string>
  {
    set c | c in columns :: c.name
  }

  function RowIds(rows: seq<Row>): set<int>
  {
    set r | r in rows :: r.rowid
  }

  /** The largest rowid in use. */
  function MaxRowId(rows: seq<Row>): (m: int)
    requires |rows| > 0
    ensures forall r | r in rows :: r.rowid <= m
    ensures m in RowIds(rows)
    decreases |rows|
  {
    if |rows| == 1 then
      rows[0].rowid
    else
      var m := MaxRowId(rows[1..]);
      assert forall r | r in rows :: r == rows[0] || r in rows[1..];
      if rows[0].rowid > m then rows[0].rowid else m
  }

  /** The rowid SQLite gives a row inserted without one: one more than the
      largest in use, or 1 in an empty table. */
  function NextRowId(rows: seq<Row>): (id: int)
    ensures forall r | r in rows :: r.rowid < id
    ensures id !in RowIds(rows)
    ensures |rows| == 0 ==> id == 1
    ensures |rows| > 0 ==> id - 1 in RowIds(rows)
    ensures (forall r | r in rows :: r.rowid >= 0) ==> id >= 1
  {
    if |rows| == 0 then 1 else MaxRowId(rows) + 1
  }

  /** The value an INSERT gives a column: its first assignment, else NULL. */
  function Assigned(assignments: seq<Assignment>, column: string): (v: Value)
    ensures v != Null ==> exists a | a in assignments :: a.column == column && a.value == v
    ensures (forall a | a in assignments :: a.column != column) ==> v == Null
    decreases |assignments|
  {
    if |assignments| == 0 then Null
    else if assignments[0].column == column then assignments[0].value
    else Assigned(assignments[1..], column)
  }

  /** The first assigned column the table does not declare. */
  function UnknownColumn(columns: seq<Column>, assignments: seq<Assignment>): (r: Option<string>)
    ensures r.None? <==> forall a | a in assignments :: HasColumn(columns, a.column)
    ensures r.Some? ==> !HasColumn(columns, r.value)
    decreases |assignments|
  {
    if |assignments| == 0 then None
    else if !HasColumn(columns, assignments[0].column) then Some(assignments[0].column)
    else
      var r := UnknownColumn(columns, assignments[1..]);
      assert forall a | a in assignments :: a == assignments[0] || a in assignments[1..];
      r
  }

  /** The first NOT NULL column (other than the rowid alias) left NULL. */
  function NullViolation(columns: seq<Column>, assignments: seq<Assignment>): (r: Option<string>)
    ensures r.None? <==>
      forall c | c in columns && c.notNull && !c.rowidAlias :: Assigned(assignments, c.name) != Null
    ensures r.Some? ==>
      exists c | c in columns :: c.name == r.value && c.notNull && !c.rowidAlias && Assigned(assignments, c.name) == Null
    decreases |columns|
  {
    if |columns| == 0 then None
    else
      var c := columns[0];
      if c.notNull && !c.rowidAlias && Assigned(assignments, c.name) == Null then Some(c.name)
      else
        var r := NullViolation(columns[1..], assignments);
        assert forall c' | c' in columns :: c' == c || c' in columns[1..];
        r
  }

  /** The table's `INTEGER PRIMARY KEY` column, if it declares one. */
  function AliasColumn(columns: seq<Column>): (r: Option<Column>)
    ensures r.Some? ==> r.value in columns && r.value.rowidAlias
    ensures r.None? ==> forall c | c in columns :: !c.rowidAlias
    decreases |columns|
  {
    if |columns| == 0 then None
    else if columns[0].rowidAlias then Some(columns[0])
    else
      var r := AliasColumn(columns[1..]);
      assert forall c | c in columns :: c == columns[0] || c in columns[1..];
      r
  }

  /** The rowid given explicitly through the alias column, if any. */
  function ExplicitRowId(columns: seq<Column>, assignments: seq<Assignment>): Value
  {
    match AliasColumn(columns)
    case None => Null
    case Some(c) => Assigned(assignments, c.name)
  }

  /** The value stored in column `c` of a new row with rowid `rowid`. */
  function CellValue(c: Column, assignments: seq<Assignment>, rowid: int): Value
  {
    if c.rowidAlias then Integer(rowid) else Assigned(assignments, c.name)
  }

  /** The cells of a new row: one per declared column, in column order. */
  function Cells(columns: seq<Column>, assignments: seq<Assignment>, rowid: int): seq<Value>
  {
    seq(|columns|, i requires 0 <= i < |columns| => CellValue(columns[i], assignments, rowid))
  }

  /** `CREATE TABLE IF NOT EXISTS`: an existing table is left as it is,
      whatever columns it has. */
  function CreateTable(db: Db, name: string, columns: seq<Column>): (r: Db)
    ensures r.tables.Keys == db.tables.Keys + {name}
    ensures forall t | t in db.tables :: r.tables[t] == db.tables[t]
    ensures name !in db.tables ==> r.tables[name] == Table(columns, [])
  {
    if name in db.tables then db else Db(db.tables[name := Table(columns, [])])
  }

  /** `INSERT INTO name (...) VALUES (...)`: the new database and the new
      row's rowid, or the error SQLite raises. Checks run in SQLite's order:
      the table and its columns when the statement is prepared, then the
      rowid's type, the NOT NULL constraints and the rowid's uniqueness. */
  function InsertRow(db: Db, name: string, assignments: seq<Assignment>): (r: Result<(Db, int), SqlError>)
    ensures name !in db.tables ==> r == Raised(NoSuchTable(name))
    ensures r.Ok? ==>
      && name in db.tables
      && var t := db.tables[name];
      && var (db', id) := r.value;
      && id !in RowIds(t.rows)
      && db'.tables == db.tables[name := t.(rows := t.rows + [Row(id, Cells(t.columns, assignments, id))])]
      && (forall a | a in assignments :: HasColumn(t.columns, a.column))
      && (forall c | c in t.columns && c.notNull && !c.rowidAlias :: Assigned(assignments, c.name) != Null)
    ensures r.Raised? && r.error.NotNullFailed? ==>
      name in db.tables && r.error.table == name &&
      exists c | c in db.tables[name].columns ::
        c.name == r.error.column && c.notNull && Assigned(assignments, c.name) == Null
    ensures name in db.tables && r.Raised? && r.error.NoSuchColumn? ==>
      !HasColumn(db.tables[name].columns, r.error.column)
    ensures
      && name in db.tables
      && (forall a | a in assignments :: HasColumn(db.tables[name].columns, a.column))
      && ExplicitRowId(db.tables[name].columns, assignments) == Null
      && (forall c | c in db.tables[name].columns && c.notNull && !c.rowidAlias :: Assigned(assignments, c.name) != Null)
      ==> r.Ok? && r.value.1 == NextRowId(db.tables[name].rows)
  {
    if name !in db.tables then
      Raised(NoSuchTable(name))
    else
      var t := db.tables[name];
      match UnknownColumn(t.columns, assignments)
      case Some(col) => Raised(NoSuchColumn(name, col))
      case None =>
        var explicit := ExplicitRowId(t.columns, assignments);
        if explicit.Text? then
          Raised(DatatypeMismatch(name, AliasColumn(t.columns).value.name))
        else
          match NullViolation(t.columns, assignments)
          case Some(col) => Raised(NotNullFailed(name, col))
          case None =>
            if explicit.Integer? && explicit.i in RowIds(t.rows) then
              Raised(UniqueFailed(name, AliasColumn(t.columns).value.name))
            else
              var id := if explicit.Integer? then explicit.i else NextRowId(t.rows);
              var row := Row(id, Cells(t.columns, assignments, id));
              Ok((Db(db.tables[name := t.(rows := t.rows + [row])]), id))
  }

  /** `cursor.execute(statement)` on one connection. */
  function Execute(db: Db, stmt: Statement): (r: Result<(Db, Cursor), SqlError>)
  {
    match stmt
    case CreateTableIfNotExists(name, columns) =>
      Ok((CreateTable(db, name, columns), Cursor(None)))
    case Insert(name, assignments) =>
      match InsertRow(db, name, assignments)
      case Ok((db', id)) => Ok((db', Cursor(Some(id))))
      case Raised(e) => Raised(e)
  }
}
