/** The executor of images/app/agent_executor.py: it asks the image
    generation agent for an image, packages the result (or the reason there
    is none) as the one artifact of a completed task, and reports per-session
    metrics from the shared cache. The agent itself is foreign: its two calls
    come in through `ImageAgent`, each of which may raise. */
module ImageGeneration {
  import opened Wrappers
  import A2A
  import Cache

  const FailedText := "failed to generate image"
  const ErrorPrefix := "Error invoking agent: "

  /** The image record `get_image_data` returns. */
  datatype ImageData = ImageData(id: string, bytes: string, mimeType: string, error: Option<string>)

  /** The agent's two calls: `invoke(query, session)` answering with the key
      of the generated image, and `get_image_data(session, key)`, the record
      if one is stored. A `Failure` is an exception, carrying its message. */
  datatype ImageAgent = ImageAgent(
    invoke: (string, string) -> Result<string>,
    imageData: (string, string) -> Result<Option<ImageData>>)

  /** The truthiness of `data.error`: set and non-empty. */
  predicate HasError(d: ImageData) {
    d.error.Some? && d.error.value != ""
  }

  /** The single part of the response: the image as a file part when there is
      a record without an error; otherwise a text part with the record's error
      or, without a record, the fixed failure text. */
  function ResponseParts(data: Option<ImageData>): (parts: seq<A2A.Part>)
    ensures |parts| == 1
    ensures parts[0].FilePart? <==> data.Some? && !HasError(data.value)
    ensures parts[0].FilePart? ==>
              parts[0].file == A2A.FileWithBytes(A2A.Str(data.value.bytes), Some(data.value.mimeType), Some(data.value.id))
    ensures data.None? ==> parts[0] == A2A.TextPart(FailedText)
    ensures data.Some? && HasError(data.value) ==> parts[0] == A2A.TextPart(data.value.error.value)
  {
    if data.Some? && !HasError(data.value) then
      [A2A.FilePart(A2A.FileWithBytes(A2A.Str(data.value.bytes), Some(data.value.mimeType), Some(data.value.id)))]
    else
      var errorText := if data.Some? then data.value.error.value else FailedText;
      [A2A.TextPart(errorText)]
  }

  /** A response never consists of an empty text: a failure always says why. */
  lemma FailureTextNeverEmpty(data: Option<ImageData>)
    ensures ResponseParts(data)[0].TextPart? ==> ResponseParts(data)[0].text != ""
  {
    if data.None? {
      assert FailedText[0] == 'f';
    }
  }

  /** What `execute` arrives at for a request: the response parts, or the
      message of the exception the agent raised. */
  function Outcome(context: A2A.RequestContext, agent: ImageAgent): (r: Result<seq<A2A.Part>>)
    ensures r.Success? ==> |r.value| == 1
  {
    match agent.invoke(context.userInput, context.contextId)
    case Failure(e) => Failure(e)
    case Success(key) =>
      match agent.imageData(context.contextId, key)
      case Failure(e) => Failure(e)
      case Success(data) => Success(ResponseParts(data))
  }

  /** The completed task `execute` enqueues: one artifact named after the
      task, and the incoming message as the history. */
  function CompletionEvent(context: A2A.RequestContext, parts: seq<A2A.Part>): A2A.Event {
    A2A.CompletedTask(context.taskId, context.contextId,
                      [A2A.Artifact("image_" + context.taskId, parts)], [context.message])
  }

  /** `_validate_request`: every request passes. */
  function ValidateRequest(context: A2A.RequestContext): (error: bool)
    ensures !error
  {
    false
  }

  /** A session's entry in the cache, as far as `len` and truthiness see it: a
      collection of some size, or a value without a length. */
  datatype SessionValue = Collection(size: nat) | Scalar(truthy: bool, typeName: string)

  /** The dictionary `get_metrics` returns. */
  datatype Metrics =
    | Metrics(contextId: string, totalImages: nat, langsmithEnabled: bool)
    | MetricsError(contextId: string, error: string)

  /** `get_metrics` once the cache has been read: `total_images` is the
      entry's length, 0 for a missing or empty entry; `len` of a truthy value
      without a length raises, which is reported as an error. */
  function MetricsFor(contextId: string, entry: Option<SessionValue>, langsmithEnabled: bool): (m: Metrics)
    ensures m.contextId == contextId
    ensures m.MetricsError? <==> entry.Some? && entry.value.Scalar? && entry.value.truthy
    ensures m.Metrics? ==> m.langsmithEnabled == langsmithEnabled
    ensures m.Metrics? && entry.Some? && entry.value.Collection? ==> m.totalImages == entry.value.size
    ensures m.Metrics? && !(entry.Some? && entry.value.Collection?) ==> m.totalImages == 0
  {
    match entry
    case None => Metrics(contextId, 0, langsmithEnabled)
    case Some(Collection(n)) => Metrics(contextId, n, langsmithEnabled)
    case Some(Scalar(truthy, typeName)) =>
      if truthy then MetricsError(contextId, "object of type '" + typeName + "' has no len()")
      else Metrics(contextId, 0, langsmithEnabled)
  }

  /** `cancel`: always refused, and nothing is enqueued. */
  method Cancel(context: A2A.RequestContext, queue: A2A.EventQueue) returns (raised: A2A.ServerError)
    ensures raised == A2A.UnsupportedOperation
  {
    raised := A2A.UnsupportedOperation;
  }

  /** `execute`. Validation never fails. When the agent answers, exactly one
      completed task holding the response is enqueued; when it raises, a
      ValueError carrying its message is raised and nothing is enqueued. */
  method Execute(context: A2A.RequestContext, queue: A2A.EventQueue, agent: ImageAgent)
    returns (raised: Option<A2A.ServerError>)
    modifies queue
    ensures raised != Some(A2A.InvalidParams)
    ensures Outcome(context, agent).Success? ==>
              raised == None && queue.events == old(queue.events) + [CompletionEvent(context, Outcome(context, agent).value)]
    ensures Outcome(context, agent).Failure? ==>
              raised == Some(A2A.ValueError(ErrorPrefix + Outcome(context, agent).error))
              && queue.events == old(queue.events)
  {
    var error := ValidateRequest(context);
    // the InvalidParams branch of the source is never taken
    assert !error;
    var query := context.userInput;
    var result := agent.invoke(query, context.contextId);
    if result.Failure? {
      return Some(A2A.ValueError(ErrorPrefix + result.error));
    }
    var data := agent.imageData(context.contextId, result.value);
    if data.Failure? {
      return Some(A2A.ValueError(ErrorPrefix + data.error));
    }
    var parts := ResponseParts(data.value);
    queue.Enqueue(CompletionEvent(context, parts));
    raised := None;
  }

  /** `get_metrics`. `importError` is the outcome of importing the cache
      module (the message of the import error, if it fails) and `cls` the
      cache class that import yields. Constructing the cache makes the shared
      instance if there is none yet; no entry of it changes. */
  method GetMetrics(contextId: string, importError: Option<string>, cls: Cache.InMemoryCacheClass<SessionValue>,
                    langsmithEnabled: bool)
    returns (m: Metrics)
    requires cls.Valid()
    modifies cls
    ensures cls.Valid()
    ensures importError.Some? ==> m == MetricsError(contextId, importError.value) && unchanged(cls)
    ensures importError.None? ==>
              cls.instance != null
              && m == MetricsFor(contextId,
                                 if contextId in cls.instance.entries then Some(cls.instance.entries[contextId]) else None,
                                 langsmithEnabled)
    ensures importError.None? && old(cls.instance) == null ==>
              fresh(cls.instance) && cls.instance.entries == map[] && cls.instance.order == []
              && m == Metrics(contextId, 0, langsmithEnabled)
    ensures old(cls.instance) != null ==> cls.instance == old(cls.instance) && unchanged(cls.instance)
  {
    if importError.Some? {
      return MetricsError(contextId, importError.value);
    }
    var cache := cls.New();
    var sessionData := cache.Get(contextId);
    m := MetricsFor(contextId, sessionData, langsmithEnabled);
  }
}
