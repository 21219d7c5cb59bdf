/** The A2A protocol values the two executors read and produce: message parts,
    request context, tasks, artifacts, the events they enqueue and the
    server errors they raise. The library's task state machine, task store and
    `TaskUpdater` are not part of this model: an enqueued update is recorded as
    an abstract `Event`. */
module A2A {
  import opened Wrappers
  import opened Base64

  /** A part's payload as Python sees it: `bytes`, `str`, or anything else
      (`None`). */
  datatype Payload = Bytes(raw: seq<Byte>) | Str(text: string) | NoData

  /** The `file` of a FilePart. */
  datatype FileContent =
    | FileWithBytes(bytes: Payload, mimeType: Option<string>, name: Option<string>)
    | FileWithUri(uri: string, mimeType: Option<string>, name: Option<string>)
    | UnrecognisedFile

  /** A message part, by its `kind` (or its class name): text, an image
      carrying `data` and `mime_type`, a file, or anything else. */
  datatype Part =
    | TextPart(text: string)
    | ImagePart(data: Payload, mimeType: Option<string>)
    | FilePart(file: FileContent)
    | OtherPart

  datatype Message = Message(parts: seq<Part>)

  datatype Task = Task(id: string, contextId: string)

  datatype RequestContext = RequestContext(
    taskId: string,
    contextId: string,
    message: Option<Message>,
    currentTask: Option<Task>,
    userInput: string)

  datatype Artifact = Artifact(name: string, parts: seq<Part>)

  datatype TaskState = Working | InputRequired | Completed

  datatype Event =
    | TaskCreated(task: Task)
    | StatusUpdate(taskId: string, contextId: string, state: TaskState, text: Option<string>, final: bool)
    | ArtifactUpdate(taskId: string, contextId: string, artifact: Artifact)
    | CompletedTask(taskId: string, contextId: string, artifacts: seq<Artifact>, history: seq<Option<Message>>)

  /** The error a `ServerError` wraps. */
  datatype ServerError = InvalidParams | UnsupportedOperation | InternalError | ValueError(message: string)

  /** The event queue an executor writes to: events are only ever appended. */
  class EventQueue {
    var events: seq<Event>

    constructor ()
      ensures events == []
    {
      events := [];
    }

    method Enqueue(e: Event)
      modifies this
      ensures events == old(events) + [e]
    {
      events := events + [e];
    }
  }
}
