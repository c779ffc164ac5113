/** The application's records: projects, dated log entries and image
    attachments. Each is built with the same defaults as its dataclass:
    fields that name a stored row or an optional link start out `None`. */
module DbModels {
  import opened PySemantics

  /** A tracked project; `id` is `None` until the project is saved. */
  datatype Project = Project(
    name: string,
    priority: int,
    dueDate: string,
    thumbnailPath: Option<string>,
    id: Option<int>)

  /** One dated note of a project. */
  datatype LogEntry = LogEntry(
    content: string,
    projectId: int,
    timestamp: string,
    id: Option<int>)

  /** A stored image, optionally tied to a log or a project, or shared by all
      projects when `isGlobal` is set. The file path is always present. */
  datatype Attachment = Attachment(
    filePath: string,
    logId: Option<int>,
    projectId: Option<int>,
    isGlobal: bool,
    isThumbnail: bool,
    id: Option<int>)

  /** `Project(name, priority, due_date, thumbnail_path=None)`. */
  function NewProject(name: string, priority: int, dueDate: string, thumbnailPath: Option<string> := None): (p: Project)
    ensures p.name == name && p.priority == priority && p.dueDate == dueDate
    ensures p.thumbnailPath == thumbnailPath
    ensures p.id.None?
  {
    Project(name, priority, dueDate, thumbnailPath, None)
  }

  /** `LogEntry(content, project_id, timestamp)`. */
  function NewLogEntry(content: string, projectId: int, timestamp: string): (e: LogEntry)
    ensures e.content == content && e.projectId == projectId && e.timestamp == timestamp
    ensures e.id.None?
  {
    LogEntry(content, projectId, timestamp, None)
  }

  /** `Attachment(file_path, ...)` with every keyword left at its default:
      not linked to a log or project, not global, not a thumbnail. */
  function NewAttachment(filePath: string): (a: Attachment)
    ensures a.filePath == filePath
    ensures a.logId.None? && a.projectId.None?
    ensures !a.isGlobal && !a.isThumbnail
    ensures a.id.None?
  {
    Attachment(filePath, None, None, false, false, None)
  }
}
