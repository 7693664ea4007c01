/** The parts of a normalized event (protocol/go/event.go) that the components below read. */
module Protocol {
  import opened Common

  datatype EventType =
    | SessionStarted | SessionStopped | AgentStarted | AgentStopped | ToolStarted | ToolCompleted
    | FileFocused | FileRead | FileCreated | FileModified | FilePatched | FileRenamed | FileMoved | FileDeleted
    | DirectoryCreated | DirectoryRenamed | DirectoryDeleted | CommandStarted | CommandCompleted
    | AccessIntervalOpened | AccessIntervalClosed | DiffCalculated | ProjectRescanned
    | AdapterConnected | AdapterDisconnected | AdapterWarning | DroppedOrCoalesced

  datatype Confidence = Exact | Correlated | Observed | Inferred

  datatype Source = NativeHook | StructuredStream | Editor | Filesystem | Git | Wrapper | Synthetic

  /** Instants are integers; ZERO_TIME is the zero value of the clock type. */
  type Time = int

  const ZERO_TIME: Time := 0

  /** What the metadata holds under secondary_paths: nothing, strings, a list of anything, or something else. */
  datatype PathList = NoPaths | Strings(paths: seq<string>) | Mixed(values: seq<Option<string>>) | NoList

  datatype Event = Event(
    eventId: string,
    sessionId: string,
    agentId: string,
    source: Source,
    confidence: Confidence,
    eventType: EventType,
    operation: string,
    status: string,
    timestamp: Time,
    monotonic: int,
    correlationId: string,
    projectRoot: string,
    path: string,
    previousPath: string,
    nodeId: string,
    linesAdded: Option<int>,
    linesDeleted: Option<int>,
    accessSequence: Option<int>,
    secondaryPaths: PathList)
}
