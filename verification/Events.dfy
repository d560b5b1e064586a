/** File events as every component passes them around. */
module Events {
  import opened Text
  import opened Timestamps

  datatype EventType = Created | Modified | Deleted | Renamed

  datatype Source = User | AiAgent | Git | Build | Voice

  datatype FileEvent = FileEvent(
    timestamp: DateTime,
    eventType: EventType,
    filePath: string,
    projectId: string,
    source: Source,
    sourceId: Option<string>,
    machineId: string,
    contentHash: Option<string>,
    oldPath: Option<string>)

  function EventTypeText(t: EventType): string {
    match t
    case Created => "created"
    case Modified => "modified"
    case Deleted => "deleted"
    case Renamed => "renamed"
  }

  function ParseEventType(s: string): Option<EventType> {
    if s == "created" then Some(Created)
    else if s == "modified" then Some(Modified)
    else if s == "deleted" then Some(Deleted)
    else if s == "renamed" then Some(Renamed)
    else None
  }

  function SourceText(s: Source): string {
    match s
    case User => "user"
    case AiAgent => "ai_agent"
    case Git => "git"
    case Build => "build"
    case Voice => "voice"
  }

  function ParseSource(s: string): Option<Source> {
    if s == "user" then Some(User)
    else if s == "ai_agent" then Some(AiAgent)
    else if s == "git" then Some(Git)
    else if s == "build" then Some(Build)
    else if s == "voice" then Some(Voice)
    else None
  }

  /** The texts of the table and of the messages; any other text is refused. */
  lemma EventTypeNames(s: string)
    ensures match ParseEventType(s)
            case Some(Created) => s == "created"
            case Some(Modified) => s == "modified"
            case Some(Deleted) => s == "deleted"
            case Some(Renamed) => s == "renamed"
            case None => s != "created" && s != "modified" && s != "deleted" && s != "renamed"
  {
  }

  lemma SourceNames(s: string)
    ensures match ParseSource(s)
            case Some(User) => s == "user"
            case Some(AiAgent) => s == "ai_agent"
            case Some(Git) => s == "git"
            case Some(Build) => s == "build"
            case Some(Voice) => s == "voice"
            case None => s != "user" && s != "ai_agent" && s != "git" && s != "build" && s != "voice"
  {
  }

  lemma EventTypeRoundTrip(t: EventType)
    ensures ParseEventType(EventTypeText(t)) == Some(t)
  {
    assert "created"[0] == 'c' && "modified"[0] == 'm' && "deleted"[0] == 'd' && "renamed"[0] == 'r';
  }

  lemma SourceRoundTrip(s: Source)
    ensures ParseSource(SourceText(s)) == Some(s)
  {
    assert "user"[0] == 'u' && "ai_agent"[0] == 'a' && "git"[0] == 'g' && "build"[0] == 'b' && "voice"[0] == 'v';
  }
}
