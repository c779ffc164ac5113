/** The database manager: the three-table schema, the single entry point
    through which every statement runs, and saving a new project. */
module DbController {
  import opened PySemantics
  import opened DbModels
  import opened SqlStore

  const ProjectTable: string := "project"
  const LogTable: string := "log"
  const AttachmentTable: string := "attachment"

  /** `project`: name and priority are NOT NULL, the due date may be NULL.
      There is no column for a thumbnail path. */
  const ProjectColumns: seq<Column> := [
    Column("project_id", false, true),
    Column("name", true, false),
    Column("priority", true, false),
    Column("due_date", false, false)
  ]

  /** `log`: the content is NOT NULL. */
  const LogColumns: seq<Column> := [
    Column("log_id", false, true),
    Column("project_id", false, false),
    Column("timestamp", false, false),
    Column("content", true, false)
  ]

  /** `attachment`: the file path is NOT NULL. There are no columns for the
      record's project link or global flag. */
  const AttachmentColumns: seq<Column> := [
    Column("attachment_id", false, true),
    Column("log_id", false, false),
    Column("file_path", true, false),
    Column("is_thumbnail", false, false)
  ]

  const SchemaTables: set<string> := {ProjectTable, LogTable, AttachmentTable}

  /** The columns the schema declares for one of its tables. */
  function SchemaColumns(table: string): seq<Column>
  {
    if table == ProjectTable then ProjectColumns
    else if table == LogTable then LogColumns
    else AttachmentColumns
  }

  /** The database as `initialize_database` leaves it on first use. */
  predicate HasSchema(db: Db)
  {
    forall t | t in SchemaTables :: t in db.tables && db.tables[t].columns == SchemaColumns(t)
  }

  /** The store after a statement, and what the statement returned or raised. */
  datatype Executed = Executed(db: Db, result: Result<Cursor, SqlError>)

  /** `_execute_sql`: run one statement on its own connection. A failing
      statement leaves the store as it was and its error reaches the caller
      unchanged: it is reported, then re-raised, never swallowed. */
  function ExecuteSql(db: Db, stmt: Statement): (x: Executed)
    ensures x.result.Raised? <==> Execute(db, stmt).Raised?
    ensures x.result.Raised? ==> x.db == db && x.result.error == Execute(db, stmt).error
    ensures x.result.Ok? ==> (x.db, x.result.value) == Execute(db, stmt).value
  {
    match Execute(db, stmt)
    case Ok((db', cursor)) => Executed(db', Ok(cursor))
    case Raised(e) => Executed(db, Raised(e))
  }

  /** `initialize_database`: create each table only if it is absent. It
      never fails; tables that already exist keep their columns and rows. */
  function InitializeDatabase(db: Db): (r: Result<Db, SqlError>)
    ensures r.Ok?
    ensures r.value.tables.Keys == db.tables.Keys + SchemaTables
    ensures forall t | t in db.tables :: r.value.tables[t] == db.tables[t]
    ensures forall t | t in SchemaTables && t !in db.tables :: r.value.tables[t] == Table(SchemaColumns(t), [])
  {
    var x1 := ExecuteSql(db, CreateTableIfNotExists(ProjectTable, ProjectColumns));
    match x1.result
    case Raised(e) => Raised(e)
    case Ok(_) =>
      var x2 := ExecuteSql(x1.db, CreateTableIfNotExists(LogTable, LogColumns));
      match x2.result
      case Raised(e) => Raised(e)
      case Ok(_) =>
        var x3 := ExecuteSql(x2.db, CreateTableIfNotExists(AttachmentTable, AttachmentColumns));
        match x3.result
        case Raised(e) => Raised(e)
        case Ok(_) => Ok(x3.db)
  }

  /** The INSERT `save_project` issues: name, priority and due date only. */
  function SaveProjectInsert(p: Project): (s: Statement)
    ensures s.Insert? && s.table == ProjectTable
    ensures (set a | a in s.assignments :: a.column) == {"name", "priority", "due_date"}
    ensures forall a | a in s.assignments :: a.value != Null
  {
    Insert(ProjectTable, [
      Assign("name", Text(p.name)),
      Assign("priority", Integer(p.priority)),
      Assign("due_date", Text(p.dueDate))
    ])
  }

  /** The ids of the stored projects. */
  function ProjectIds(db: Db): set<int>
  {
    if ProjectTable in db.tables then RowIds(db.tables[ProjectTable].rows) else {}
  }

  /** The store after a save, and the saved project or the raised error. */
  datatype Saved = Saved(db: Db, result: Result<Project, SqlError>)

  /** `save_project`: insert the project and write the new rowid back into
      it. On success the returned project is the given one with its `id`
      set to a rowid no stored project had, and the project table has gained
      exactly that one row; every other table is unchanged. On failure the
      store is unchanged and the error is re-raised. */
  function SaveProject(db: Db, p: Project): (s: Saved)
    ensures ProjectTable !in db.tables ==> s == Saved(db, Raised(NoSuchTable(ProjectTable)))
    ensures s.result.Raised? <==> ExecuteSql(db, SaveProjectInsert(p)).result.Raised?
    ensures s.result.Raised? ==> s.db == db && s.result.error == ExecuteSql(db, SaveProjectInsert(p)).result.error
    ensures s.result.Ok? ==>
      && var q := s.result.value;
      && ProjectTable in db.tables
      && q.id.Some? && q.id.value !in ProjectIds(db)
      && q == p.(id := q.id)
      && var t := db.tables[ProjectTable];
      && s.db.tables == db.tables[ProjectTable := t.(rows := t.rows + [Row(q.id.value, Cells(t.columns, SaveProjectInsert(p).assignments, q.id.value))])]
  {
    var x := ExecuteSql(db, SaveProjectInsert(p));
    match x.result
    case Raised(e) => Saved(db, Raised(e))
    case Ok(cursor) => Saved(x.db, Ok(p.(id := cursor.lastRowId)))
  }

  /** The row `save_project` stores for `p` under rowid `id` in the schema's
      project table. */
  function ProjectRow(p: Project, id: int): seq<Value>
  {
    [Integer(id), Text(p.name), Integer(p.priority), Text(p.dueDate)]
  }

  // ---------------------------------------------------------------------
  // Properties

  /** Creating the schema twice is creating it once. */
  lemma InitializeIdempotent(db: Db)
    ensures InitializeDatabase(InitializeDatabase(db).value) == InitializeDatabase(db)
  {
    var once := InitializeDatabase(db).value;
    var twice := InitializeDatabase(once).value;
    assert twice.tables == once.tables;
  }

  /** On a fresh store, initialisation produces exactly the schema. */
  lemma InitializeFreshHasSchema()
    ensures HasSchema(InitializeDatabase(EmptyDb).value)
    ensures InitializeDatabase(EmptyDb).value.tables.Keys == SchemaTables
  {
  }

  lemma SaveInsertAssigns(p: Project)
    ensures var assigns := SaveProjectInsert(p).assignments;
      && Assigned(assigns, "name") == Text(p.name)
      && Assigned(assigns, "priority") == Integer(p.priority)
      && Assigned(assigns, "due_date") == Text(p.dueDate)
      && Assigned(assigns, "project_id") == Null
  {
    var assigns := SaveProjectInsert(p).assignments;
    var rest := assigns[1..];
    assert rest[1..] == [Assign("due_date", Text(p.dueDate))];
    assert Assigned(rest[1..], "due_date") == Text(p.dueDate);
    assert Assigned(rest, "due_date") == Text(p.dueDate);
  }

  lemma SaveInsertColumns(p: Project)
    ensures forall a | a in SaveProjectInsert(p).assignments :: HasColumn(ProjectColumns, a.column)
  {
    assert ProjectColumns[1].name == "name" && ProjectColumns[2].name == "priority" && ProjectColumns[3].name == "due_date";
  }

  lemma SaveInsertCells(p: Project, id: int)
    ensures Cells(ProjectColumns, SaveProjectInsert(p).assignments, id) == ProjectRow(p, id)
  {
    SaveInsertAssigns(p);
  }

  /** Against the schema, saving always succeeds: it stores exactly the name,
      priority and due date under the next rowid; the thumbnail path is not
      stored. */
  lemma SaveProjectOnSchema(db: Db, p: Project)
    requires HasSchema(db)
    ensures var s := SaveProject(db, p);
      && s.result.Ok?
      && var id := s.result.value.id.value;
      && var rows := db.tables[ProjectTable].rows;
      && id == NextRowId(rows)
      && s.db.tables == db.tables[ProjectTable := Table(ProjectColumns, rows + [Row(id, ProjectRow(p, id))])]
  {
    var t := db.tables[ProjectTable];
    var id := NextRowId(t.rows);
    SaveInsertAssigns(p);
    SaveInsertColumns(p);
    SaveInsertCells(p, id);
    assert t.columns == ProjectColumns;
    assert ExplicitRowId(ProjectColumns, SaveProjectInsert(p).assignments) == Null;
  }

  /** Every rowid `save_project` hands out on a table whose rowids are all
      non-negative is at least 1, and the save keeps the rowids non-negative.
      So from a fresh schema, saved projects never get the id 0 that the
      main window treats as "nothing selected". */
  lemma SavedIdIsPositive(db: Db, p: Project)
    requires HasSchema(db)
    requires forall r | r in db.tables[ProjectTable].rows :: r.rowid >= 0
    ensures var s := SaveProject(db, p);
      && s.result.Ok? && s.result.value.id.Some? && s.result.value.id.value >= 1
      && HasSchema(s.db)
      && forall r | r in s.db.tables[ProjectTable].rows :: r.rowid >= 0
  {
    SaveProjectOnSchema(db, p);
  }

  /** The project table refuses a row whose name or priority is missing or
      NULL, and the store is left unchanged. */
  lemma ProjectRequiresNameAndPriority(db: Db, assigns: seq<Assignment>)
    requires HasSchema(db)
    requires Assigned(assigns, "name") == Null || Assigned(assigns, "priority") == Null
    ensures var x := ExecuteSql(db, Insert(ProjectTable, assigns));
      x.result.Raised? && x.db == db
  {
    var t := db.tables[ProjectTable];
    assert ProjectColumns[1] in t.columns && ProjectColumns[2] in t.columns;
  }

  /** The log table refuses a row without content. */
  lemma LogRequiresContent(db: Db, assigns: seq<Assignment>)
    requires HasSchema(db)
    requires Assigned(assigns, "content") == Null
    ensures var x := ExecuteSql(db, Insert(LogTable, assigns));
      x.result.Raised? && x.db == db
  {
    assert LogColumns[3] in db.tables[LogTable].columns;
  }

  /** The attachment table refuses a row without a file path. */
  lemma AttachmentRequiresFilePath(db: Db, assigns: seq<Assignment>)
    requires HasSchema(db)
    requires Assigned(assigns, "file_path") == Null
    ensures var x := ExecuteSql(db, Insert(AttachmentTable, assigns));
      x.result.Raised? && x.db == db
  {
    assert AttachmentColumns[2] in db.tables[AttachmentTable].columns;
  }

  /** The schema has no place for a project's thumbnail path or an
      attachment's project link and global flag, although the records carry
      them: an insert naming any of them is refused. */
  lemma SchemaLacksRecordFields(db: Db, v: Value)
    requires HasSchema(db)
    ensures ExecuteSql(db, Insert(ProjectTable, [Assign("thumbnail_path", v)])).result
         == Raised(NoSuchColumn(ProjectTable, "thumbnail_path"))
    ensures ExecuteSql(db, Insert(AttachmentTable, [Assign("project_id", v)])).result
         == Raised(NoSuchColumn(AttachmentTable, "project_id"))
    ensures ExecuteSql(db, Insert(AttachmentTable, [Assign("is_global", v)])).result
         == Raised(NoSuchColumn(AttachmentTable, "is_global"))
  {
    assert !HasColumn(ProjectColumns, "thumbnail_path");
    assert !HasColumn(AttachmentColumns, "project_id");
    assert !HasColumn(AttachmentColumns, "is_global");
  }
}
