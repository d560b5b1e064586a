/** Events as gRPC messages: whole seconds and text names, relabelled on arrival. */
module Grpc {
  import opened Text
  import opened Timestamps
  import opened Calendar
  import opened Events

  datatype FileEventMessage = FileEventMessage(
    timestamp: int,
    eventType: string,
    filePath: string,
    projectId: string,
    source: string,
    sourceId: Option<string>,
    machineId: string,
    contentHash: Option<string>,
    oldPath: Option<string>)

  function ToMessage(e: FileEvent): FileEventMessage
    requires Valid(e.timestamp)
  {
    FileEventMessage(EpochSeconds(e.timestamp), EventTypeText(e.eventType), e.filePath, e.projectId,
                     SourceText(e.source), e.sourceId, e.machineId, e.contentHash, e.oldPath)
  }

  function FromMessage(m: FileEventMessage, machineId: string): Option<FileEvent> {
    match ParseEventType(m.eventType)
    case None => None
    case Some(et) =>
      match ParseSource(m.source)
      case None => None
      case Some(src) =>
        match FromEpoch(m.timestamp)
        case None => None
        case Some(t) => Some(FileEvent(t, et, m.filePath, m.projectId, src, m.sourceId, machineId, m.contentHash,
            m.oldPath))
  }

  /** What arrives at machine `machineId` when `e` is sent: its fraction and its origin are gone. */
  function Echo(e: FileEvent, machineId: string): FileEvent {
    e.(timestamp := Truncated(e.timestamp), machineId := machineId)
  }

  /** A message becomes an event exactly when its second has a date and its type and source are known; the
      event has the message's fields, and is the receiver's. */
  lemma MessageFields(m: FileEventMessage, machineId: string)
    ensures var e := FromMessage(m, machineId);
            && (e.Some? <==>
                FromEpoch(m.timestamp).Some? && ParseEventType(m.eventType).Some? && ParseSource(m.source).Some?)
            && (e.Some? ==>
                && Valid(e.value.timestamp) && e.value.timestamp.frac == 0
                && EpochSeconds(e.value.timestamp) == m.timestamp && e.value.machineId == machineId
                && Some(e.value.eventType) == ParseEventType(m.eventType)
                && Some(e.value.source) == ParseSource(m.source)
                && e.value.filePath == m.filePath && e.value.projectId == m.projectId
                && e.value.sourceId == m.sourceId && e.value.contentHash == m.contentHash
                && e.value.oldPath == m.oldPath)
  {
  }

  lemma MessageRoundTrip(e: FileEvent, machineId: string)
    requires Valid(e.timestamp)
    ensures FromMessage(ToMessage(e), machineId) == Some(Echo(e, machineId))
  {
    EpochRoundTrip(e.timestamp);
    EventTypeRoundTrip(e.eventType);
    SourceRoundTrip(e.source);
  }
}
