/** The executor of medical_Images/app/agent_executor.py: it pulls the text
    and the images out of the request message, rejects a request carrying
    neither, substitutes a default query for an image-only request, creates
    the task when there is none, and turns each item the agent yields into an
    event on the queue. */
module MedicalExecution {
  import opened Wrappers
  import A2A
  import Base64
  import PyStr
  import Medical

  const DefaultQuery := "Por favor, analiza estas imágenes médicas."
  const ArtifactName := "medical_analysis"

  // ---------------------------------------------------------------------
  // _extract_images_from_message

  /** A payload as the executor hands it on: bytes are base64-encoded, a
      string or a missing payload passes through unchanged. */
  function Encoded(p: A2A.Payload): (r: A2A.Payload)
    ensures p.Bytes? ==> r.Str? && Base64.Decode(r.text) == Some(p.raw)
    ensures !p.Bytes? ==> r == p
  {
    match p
    case Bytes(b) => (Base64.DecodeEncode(b); A2A.Str(Base64.Encode(b)))
    case _ => p
  }

  /** The image one part contributes: an image part or a file part with
      inline bytes does, a file given by URI or of unknown shape and every
      other kind of part do not. */
  function PartImage(p: A2A.Part): (r: Option<Medical.ImageEntry>)
    ensures r.Some? <==> p.ImagePart? || (p.FilePart? && p.file.FileWithBytes?)
    ensures r.Some? ==> !r.value.data.Bytes?
  {
    match p
    case ImagePart(data, mimeType) => Some(Medical.ImageEntry(Encoded(data), mimeType))
    case FilePart(file) =>
      (match file
       case FileWithBytes(bytes, mimeType, _) => Some(Medical.ImageEntry(Encoded(bytes), mimeType))
       case _ => None)
    case _ => None
  }

  /** The images of a list of parts, in part order. */
  function ImagesOf(parts: seq<A2A.Part>): seq<Medical.ImageEntry>
    decreases |parts|
  {
    if parts == [] then []
    else
      ImagesOf(parts[..|parts| - 1])
      + match PartImage(parts[|parts| - 1])
        case None => []
        case Some(e) => [e]
  }

  /** A missing message and a message without parts both have no parts. */
  function MessageParts(message: Option<A2A.Message>): seq<A2A.Part> {
    if message.Some? then message.value.parts else []
  }

  predicate NoImageParts(parts: seq<A2A.Part>) {
    forall i :: 0 <= i < |parts| ==> PartImage(parts[i]).None?
  }

  /** Images are found exactly when some part carries one. */
  lemma {:induction false} ImagesOfEmptyIff(parts: seq<A2A.Part>)
    ensures ImagesOf(parts) == [] <==> NoImageParts(parts)
    decreases |parts|
  {
    if parts != [] {
      var n := |parts| - 1;
      var front := parts[..n];
      ImagesOfEmptyIff(front);
      if PartImage(parts[n]).Some? {
        assert ImagesOf(parts) != [];
        assert !NoImageParts(parts);
      } else {
        assert ImagesOf(parts) == ImagesOf(front);
        assert forall i :: 0 <= i < n ==> front[i] == parts[i];
        assert NoImageParts(parts) <==> NoImageParts(front);
      }
    }
  }

  /** Every image handed to the agent carries text, never raw bytes, and there
      is at most one image per part. */
  lemma {:induction false} ImagesOfEncoded(parts: seq<A2A.Part>)
    ensures |ImagesOf(parts)| <= |parts|
    ensures forall e :: e in ImagesOf(parts) ==> !e.data.Bytes?
    decreases |parts|
  {
    if parts != [] {
      ImagesOfEncoded(parts[..|parts| - 1]);
    }
  }

  /** `_extract_images_from_message`. */
  method ExtractImages(context: A2A.RequestContext) returns (images: seq<Medical.ImageEntry>)
    ensures images == ImagesOf(MessageParts(context.message))
  {
    images := [];
    if context.message.None? || context.message.value.parts == [] {
      return;
    }
    var parts := context.message.value.parts;
    var i := 0;
    while i < |parts|
      invariant 0 <= i <= |parts|
      invariant images == ImagesOf(parts[..i])
    {
      assert parts[..i + 1][..i] == parts[..i];
      match parts[i] {
        case ImagePart(data, mimeType) =>
          images := images + [Medical.ImageEntry(Encoded(data), mimeType)];
        case FilePart(file) =>
          match file {
            case FileWithBytes(bytes, mimeType, _) =>
              images := images + [Medical.ImageEntry(Encoded(bytes), mimeType)];
            case FileWithUri(_, _, _) =>
            case UnrecognisedFile =>
          }
        case TextPart(_) =>
        case OtherPart =>
      }
      i := i + 1;
    }
    assert parts[..|parts|] == parts;
  }

  // ---------------------------------------------------------------------
  // _extract_text_from_message

  /** The texts of the text parts, in part order. */
  function TextsOf(parts: seq<A2A.Part>): seq<string>
    decreases |parts|
  {
    if parts == [] then []
    else
      TextsOf(parts[..|parts| - 1])
      + if parts[|parts| - 1].TextPart? then [parts[|parts| - 1].text] else []
  }

  predicate AllSpaceEach(texts: seq<string>) {
    forall j :: 0 <= j < |texts| ==> PyStr.AllSpace(texts[j])
  }

  /** The texts collected are all whitespace exactly when every text part is. */
  lemma {:induction false} TextsOfAllSpace(parts: seq<A2A.Part>)
    ensures AllSpaceEach(TextsOf(parts)) <==> AllTextBlank(parts)
    decreases |parts|
  {
    if parts != [] {
      var n := |parts| - 1;
      var front := parts[..n];
      TextsOfAllSpace(front);
      var ts, fs := TextsOf(parts), TextsOf(front);
      var last := parts[n];
      assert ts == fs + if last.TextPart? then [last.text] else [];
      assert forall i :: 0 <= i < n ==> front[i] == parts[i];
      assert forall j :: 0 <= j < |fs| ==> ts[j] == fs[j];
      if last.TextPart? {
        assert ts[|fs|] == last.text;
      }
    }
  }

  /** The message text: the text parts joined by single spaces, stripped. */
  function ExtractedText(message: Option<A2A.Message>): string {
    PyStr.Strip(PyStr.Join(TextsOf(MessageParts(message))))
  }

  /** Every text part is whitespace only (vacuously so when there is none). */
  predicate AllTextBlank(parts: seq<A2A.Part>) {
    forall i :: 0 <= i < |parts| && parts[i].TextPart? ==> PyStr.AllSpace(parts[i].text)
  }

  /** The extracted text is empty exactly when every text part is blank. */
  lemma ExtractedTextEmptyIff(message: Option<A2A.Message>)
    ensures ExtractedText(message) == "" <==> AllTextBlank(MessageParts(message))
  {
    var parts := MessageParts(message);
    var texts := TextsOf(parts);
    var joined := PyStr.Join(texts);
    assert ExtractedText(message) == "" <==> PyStr.AllSpace(joined) by {
      PyStr.StripEmptyIff(joined);
    }
    assert PyStr.AllSpace(joined) <==> AllSpaceEach(texts) by {
      PyStr.JoinAllSpace(texts);
    }
    assert AllSpaceEach(texts) <==> AllTextBlank(parts) by {
      TextsOfAllSpace(parts);
    }
  }

  /** `_extract_text_from_message`. */
  method ExtractText(context: A2A.RequestContext) returns (text: string)
    ensures text == ExtractedText(context.message)
  {
    if context.message.None? || context.message.value.parts == [] {
      return "";
    }
    var parts := context.message.value.parts;
    var textParts: seq<string> := [];
    var i := 0;
    while i < |parts|
      invariant 0 <= i <= |parts|
      invariant textParts == TextsOf(parts[..i])
    {
      assert parts[..i + 1][..i] == parts[..i];
      if parts[i].TextPart? {
        textParts := textParts + [parts[i].text];
      }
      i := i + 1;
    }
    assert parts[..|parts|] == parts;
    text := PyStr.Strip(PyStr.Join(textParts));
  }

  // ---------------------------------------------------------------------
  // _validate_request and the query

  /** What makes a part count towards a valid request: non-blank text, or an
      image. */
  predicate Contributes(p: A2A.Part) {
    (p.TextPart? && !PyStr.AllSpace(p.text)) || PartImage(p).Some?
  }

  /** The executor's test: no text and no images. */
  predicate RequestInvalid(message: Option<A2A.Message>) {
    ExtractedText(message) == "" && ImagesOf(MessageParts(message)) == []
  }

  predicate NoneContributes(parts: seq<A2A.Part>) {
    forall i :: 0 <= i < |parts| ==> !Contributes(parts[i])
  }

  /** A request is rejected exactly when none of its parts contributes; in
      particular a missing message and an empty one are rejected. */
  lemma RequestInvalidIff(message: Option<A2A.Message>)
    ensures RequestInvalid(message) <==> NoneContributes(MessageParts(message))
  {
    var parts := MessageParts(message);
    assert RequestInvalid(message) <==> AllTextBlank(parts) && NoImageParts(parts) by {
      ExtractedTextEmptyIff(message);
      ImagesOfEmptyIff(parts);
    }
    assert NoneContributes(parts) <==> AllTextBlank(parts) && NoImageParts(parts);
  }

  /** `_validate_request`: True means the request is in error. */
  method ValidateRequest(context: A2A.RequestContext) returns (error: bool)
    ensures error <==> NoneContributes(MessageParts(context.message))
    ensures error == RequestInvalid(context.message)
  {
    var text := ExtractText(context);
    var images := ExtractImages(context);
    RequestInvalidIff(context.message);
    error := text == "" && images == [];
  }

  /** The query sent to the agent: the message text, or the default query
      when there is no text but there are images. */
  function EffectiveQuery(text: string, images: seq<Medical.ImageEntry>): (q: string)
    ensures text != "" ==> q == text
    ensures text == "" && images != [] ==> q == DefaultQuery
  {
    if text == "" && images != [] then DefaultQuery else text
  }

  function Query(message: Option<A2A.Message>): string {
    EffectiveQuery(ExtractedText(message), ImagesOf(MessageParts(message)))
  }

  /** The default query starts with a letter. */
  lemma DefaultQueryNotBlank()
    ensures DefaultQuery != "" && !PyStr.IsSpace(DefaultQuery[0])
  {
    assert DefaultQuery[0] == 'P';
  }

  /** A request that passes validation always reaches the agent with a query
      that is neither empty nor starts with whitespace. */
  lemma QueryOfValidRequest(message: Option<A2A.Message>)
    requires !RequestInvalid(message)
    ensures Query(message) != "" && !PyStr.IsSpace(Query(message)[0])
  {
    var text := ExtractedText(message);
    if text == "" {
      DefaultQueryNotBlank();
    }
  }

  // ---------------------------------------------------------------------
  // The item loop of execute

  function WorkingUpdate(content: string, task: A2A.Task): A2A.Event {
    A2A.StatusUpdate(task.id, task.contextId, A2A.Working, Some(content), false)
  }

  /** The artifact carrying the answer, then the final completed update. */
  function CompletionEvents(content: string, task: A2A.Task): seq<A2A.Event> {
    [A2A.ArtifactUpdate(task.id, task.contextId, A2A.Artifact(ArtifactName, [A2A.TextPart(content)])),
     A2A.StatusUpdate(task.id, task.contextId, A2A.Completed, None, true)]
  }

  predicate Terminal(item: Medical.StreamItem) {
    item.isTaskComplete || item.requireUserInput
  }

  predicate IsFinal(e: A2A.Event) {
    e.StatusUpdate? && e.final
  }

  /** The events the loop enqueues for the items: a working update per
      progress item; at the first item asking for input, a final
      input-required update; at the first completed item, the artifact and the
      completion; nothing after either. */
  function Dispatched(items: seq<Medical.StreamItem>, task: A2A.Task): seq<A2A.Event>
    decreases |items|
  {
    if items == [] then []
    else
      var item := items[0];
      if !item.isTaskComplete && !item.requireUserInput then
        [WorkingUpdate(item.content, task)] + Dispatched(items[1..], task)
      else if item.requireUserInput then
        [A2A.StatusUpdate(task.id, task.contextId, A2A.InputRequired, Some(item.content), true)]
      else CompletionEvents(item.content, task)
  }

  /** Only the last event can be final. */
  lemma {:induction false} DispatchedFinalLast(items: seq<Medical.StreamItem>, task: A2A.Task)
    ensures forall i :: 0 <= i < |Dispatched(items, task)| - 1 ==> !IsFinal(Dispatched(items, task)[i])
    decreases |items|
  {
    if items != [] && !Terminal(items[0]) {
      DispatchedFinalLast(items[1..], task);
      var rest := Dispatched(items[1..], task);
      var d := Dispatched(items, task);
      assert d == [WorkingUpdate(items[0].content, task)] + rest;
      forall i | 1 <= i < |d| - 1 ensures !IsFinal(d[i]) {
        assert d[i] == rest[i - 1];
        assert 0 <= i - 1 < |rest| - 1;
        assert !IsFinal(rest[i - 1]);
      }
    }
  }

  /** Whatever follows a terminal item is never dispatched. */
  lemma {:induction false} DispatchedStopsAtTerminal(before: seq<Medical.StreamItem>, item: Medical.StreamItem,
                                                     after: seq<Medical.StreamItem>, task: A2A.Task)
    requires Terminal(item)
    ensures Dispatched(before + [item] + after, task) == Dispatched(before + [item], task)
    decreases |before|
  {
    if before == [] {
      assert ([item] + after)[1..] == after;
    } else {
      DispatchedStopsAtTerminal(before[1..], item, after, task);
      assert (before + [item] + after)[1..] == before[1..] + [item] + after;
      assert (before + [item])[1..] == before[1..] + [item];
    }
  }

  /** One working update per item, carrying the item's content. */
  function WorkingUpdates(items: seq<Medical.StreamItem>, task: A2A.Task): (r: seq<A2A.Event>)
    ensures |r| == |items|
  {
    seq(|items|, i requires 0 <= i < |items| => WorkingUpdate(items[i].content, task))
  }

  /** A run of progress items closed by a completed one becomes one working
      update per progress item, then the artifact with the last item's
      content and the final completion. */
  lemma {:induction false} DispatchedRun(items: seq<Medical.StreamItem>, task: A2A.Task)
    requires |items| >= 1 && items[|items| - 1].isTaskComplete
    requires forall i :: 0 <= i < |items| ==> !items[i].requireUserInput
    requires forall i :: 0 <= i < |items| - 1 ==> !items[i].isTaskComplete
    ensures Dispatched(items, task)
            == WorkingUpdates(items[..|items| - 1], task) + CompletionEvents(items[|items| - 1].content, task)
    decreases |items|
  {
    var n := |items| - 1;
    if n > 0 {
      var tail := items[1..];
      DispatchedRun(tail, task);
      assert tail[|tail| - 1] == items[n];
      var front, rest := WorkingUpdates(items[..n], task), WorkingUpdates(tail[..|tail| - 1], task);
      assert front == [WorkingUpdate(items[0].content, task)] + rest by {
        forall i | 1 <= i < n ensures front[i] == rest[i - 1] {
          assert tail[..|tail| - 1][i - 1] == items[i];
        }
      }
    } else {
      assert WorkingUpdates(items[..0], task) == [];
    }
  }

  /** What one `stream` run turns into: a working update per progress item,
      then the artifact holding the reply and the final completion; and no
      event but the last is final. */
  lemma StreamEvents(imageCount: nat, reply: string, task: A2A.Task)
    ensures Dispatched(Medical.ProgressItems(imageCount, reply), task)
            == WorkingUpdates(Medical.ProgressItems(imageCount, reply)[..|Medical.ProgressItems(imageCount, reply)| - 1], task)
               + CompletionEvents(reply, task)
    ensures forall i :: 0 <= i < |Dispatched(Medical.ProgressItems(imageCount, reply), task)| - 1 ==>
              !IsFinal(Dispatched(Medical.ProgressItems(imageCount, reply), task)[i])
  {
    var items := Medical.ProgressItems(imageCount, reply);
    DispatchedRun(items, task);
    DispatchedFinalLast(items, task);
  }

  /** The `async for` loop of `execute`: one item at a time, leaving the loop
      after a terminal item. */
  method DispatchItems(items: seq<Medical.StreamItem>, task: A2A.Task, queue: A2A.EventQueue)
    modifies queue
    ensures queue.events == old(queue.events) + Dispatched(items, task)
  {
    var i := 0;
    while i < |items|
      invariant 0 <= i <= |items|
      invariant queue.events + Dispatched(items[i..], task) == old(queue.events) + Dispatched(items, task)
    {
      var item := items[i];
      assert items[i..][1..] == items[i + 1..];
      if !item.isTaskComplete && !item.requireUserInput {
        queue.Enqueue(WorkingUpdate(item.content, task));
      } else if item.requireUserInput {
        queue.Enqueue(A2A.StatusUpdate(task.id, task.contextId, A2A.InputRequired, Some(item.content), true));
        break;
      } else {
        queue.Enqueue(A2A.ArtifactUpdate(task.id, task.contextId,
                                         A2A.Artifact(ArtifactName, [A2A.TextPart(item.content)])));
        queue.Enqueue(A2A.StatusUpdate(task.id, task.contextId, A2A.Completed, None, true));
        break;
      }
      i := i + 1;
    }
  }

  // ---------------------------------------------------------------------
  // execute and cancel

  /** The task the request runs under: the current one, or the one created
      for it. */
  function TaskFor(context: A2A.RequestContext, created: A2A.Task): A2A.Task {
    if context.currentTask.Some? then context.currentTask.value else created
  }

  function CreatedEvents(context: A2A.RequestContext, created: A2A.Task): seq<A2A.Event> {
    if context.currentTask.Some? then [] else [A2A.TaskCreated(created)]
  }

  /** The first steps of `execute`: validate the request, then extract the
      query (defaulted for an image-only request) and the images. */
  method Prepare(context: A2A.RequestContext) returns (error: bool, query: string, images: seq<Medical.ImageEntry>)
    ensures error == RequestInvalid(context.message)
    ensures !error ==> query == Query(context.message) && images == ImagesOf(MessageParts(context.message))
  {
    error := ValidateRequest(context);
    if error {
      return error, "", [];
    }
    query := ExtractText(context);
    images := ExtractImages(context);
    if query == "" && images != [] {
      query := DefaultQuery;
    }
  }

  /** The agent's final answer to this request, given what was saved and
      stored for the task's context beforehand. */
  function Reply(context: A2A.RequestContext, created: A2A.Task, history: seq<Medical.Exchange>,
                 stored: map<string, string>, b: Medical.Backends): string
  {
    Medical.FinalResponse(Query(context.message), ImagesOf(MessageParts(context.message)), history, stored,
                          TaskFor(context, created).contextId, b)
  }

  class MedicalAgentExecutor {
    const agent: Medical.MedicalAgent

    constructor ()
      ensures fresh(agent) && agent.Valid() && agent.memories == map[] && agent.visualFindings == map[]
    {
      agent := new Medical.MedicalAgent();
    }

    /** The streaming part of `execute`: run the agent under the task's
        context and dispatch what it yields. */
    method StreamAndDispatch(query: string, images: seq<Medical.ImageEntry>, task: A2A.Task,
                             queue: A2A.EventQueue, b: Medical.Backends)
      requires agent.Valid()
      modifies queue, agent, agent.memories.Values
      ensures agent.Valid()
      ensures queue.events == old(queue.events)
                + Dispatched(Medical.ProgressItems(|images|, Medical.FinalResponse(query, images,
                    old(agent.History(task.contextId)), old(agent.visualFindings), task.contextId, b)), task)
      ensures agent.History(task.contextId) == old(agent.History(task.contextId))
                + [Medical.Exchange(query, Medical.FinalResponse(query, images,
                    old(agent.History(task.contextId)), old(agent.visualFindings), task.contextId, b))]
      ensures agent.visualFindings
              == if |images| > 0 then old(agent.visualFindings)[task.contextId := Medical.VisualFindings(images, b.vision)]
                 else old(agent.visualFindings)
      ensures agent.memories.Keys == old(agent.memories).Keys + {task.contextId}
      ensures forall c :: c in old(agent.memories) ==> agent.memories[c] == old(agent.memories[c])
      ensures task.contextId !in old(agent.memories) ==> fresh(agent.memories[task.contextId])
      ensures forall c :: c != task.contextId ==> agent.History(c) == old(agent.History(c))
    {
      var items := agent.Stream(query, task.contextId, images, b);
      DispatchItems(items, task, queue);
    }

    /** Two requests under one task, the first with images and the second
        without: the second is answered with the findings stored by the
        first, and both exchanges are remembered in order. */
    method FollowUp(query1: string, images1: seq<Medical.ImageEntry>, query2: string, task: A2A.Task,
                    queue: A2A.EventQueue, b: Medical.Backends)
      returns (ghost reply1: string, ghost reply2: string)
      requires agent.Valid() && images1 != []
      modifies queue, agent, agent.memories.Values
      ensures agent.Valid()
      ensures reply1 == Medical.FinalResponse(query1, images1, old(agent.History(task.contextId)),
                                              old(agent.visualFindings), task.contextId, b)
      ensures reply2 == Medical.Answer(query2,
                          Medical.MemoryContext(old(agent.History(task.contextId)) + [Medical.Exchange(query1, reply1)],
                                                b.recall),
                          Medical.VisualFindings(images1, b.vision), b)
      ensures agent.History(task.contextId) == old(agent.History(task.contextId))
                + [Medical.Exchange(query1, reply1), Medical.Exchange(query2, reply2)]
      ensures queue.events == old(queue.events) + Dispatched(Medical.ProgressItems(|images1|, reply1), task)
                + Dispatched(Medical.ProgressItems(0, reply2), task)
    {
      reply1 := Medical.FinalResponse(query1, images1, agent.History(task.contextId), agent.visualFindings,
                                      task.contextId, b);
      ghost var before := queue.events;
      StreamAndDispatch(query1, images1, task, queue, b);
      ghost var history := agent.History(task.contextId);
      ghost var stored := agent.visualFindings;
      ghost var middle := queue.events;
      assert history == old(agent.History(task.contextId)) + [Medical.Exchange(query1, reply1)];
      assert middle == before + Dispatched(Medical.ProgressItems(|images1|, reply1), task);
      assert stored[task.contextId] == Medical.VisualFindings(images1, b.vision);
      reply2 := Medical.FinalResponse(query2, [], history, stored, task.contextId, b);
      StreamAndDispatch(query2, [], task, queue, b);
      assert queue.events == middle + Dispatched(Medical.ProgressItems(0, reply2), task);
    }

    /** The part of `execute` after validation: enqueue the task when it is
        new, then stream and dispatch under it. */
    method Run(isNew: bool, query: string, images: seq<Medical.ImageEntry>, task: A2A.Task,
               queue: A2A.EventQueue, b: Medical.Backends)
      requires agent.Valid()
      modifies queue, agent, agent.memories.Values
      ensures agent.Valid()
      ensures queue.events == old(queue.events) + (if isNew then [A2A.TaskCreated(task)] else [])
                + Dispatched(Medical.ProgressItems(|images|, Medical.FinalResponse(query, images,
                    old(agent.History(task.contextId)), old(agent.visualFindings), task.contextId, b)), task)
      ensures agent.History(task.contextId) == old(agent.History(task.contextId))
                + [Medical.Exchange(query, Medical.FinalResponse(query, images,
                    old(agent.History(task.contextId)), old(agent.visualFindings), task.contextId, b))]
      ensures agent.visualFindings
              == if |images| > 0 then old(agent.visualFindings)[task.contextId := Medical.VisualFindings(images, b.vision)]
                 else old(agent.visualFindings)
      ensures agent.memories.Keys == old(agent.memories).Keys + {task.contextId}
      ensures forall c :: c in old(agent.memories) ==> agent.memories[c] == old(agent.memories[c])
      ensures task.contextId !in old(agent.memories) ==> fresh(agent.memories[task.contextId])
      ensures forall c :: c != task.contextId ==> agent.History(c) == old(agent.History(c))
    {
      if isNew {
        queue.Enqueue(A2A.TaskCreated(task));
      }
      StreamAndDispatch(query, images, task, queue, b);
    }

    /** `execute` once the request has passed validation, stated in terms of
        the request. */
    method RunRequest(context: A2A.RequestContext, created: A2A.Task, query: string,
              images: seq<Medical.ImageEntry>, queue: A2A.EventQueue, b: Medical.Backends)
      requires agent.Valid()
      requires query == Query(context.message) && images == ImagesOf(MessageParts(context.message))
      modifies queue, agent, agent.memories.Values
      ensures agent.Valid()
      ensures queue.events == old(queue.events) + CreatedEvents(context, created)
          + Dispatched(Medical.ProgressItems(|ImagesOf(MessageParts(context.message))|,
              Reply(context, created, old(agent.History(TaskFor(context, created).contextId)),
                    old(agent.visualFindings), b)), TaskFor(context, created))
      ensures agent.History(TaskFor(context, created).contextId)
        == old(agent.History(TaskFor(context, created).contextId))
           + [Medical.Exchange(Query(context.message),
                Reply(context, created, old(agent.History(TaskFor(context, created).contextId)),
                      old(agent.visualFindings), b))]
      ensures agent.visualFindings
        == if ImagesOf(MessageParts(context.message)) != [] then
             old(agent.visualFindings)[TaskFor(context, created).contextId :=
               Medical.VisualFindings(ImagesOf(MessageParts(context.message)), b.vision)]
           else old(agent.visualFindings)
      ensures agent.memories.Keys == old(agent.memories).Keys + {TaskFor(context, created).contextId}
      ensures forall c :: c in old(agent.memories) ==> agent.memories[c] == old(agent.memories[c])
      ensures TaskFor(context, created).contextId !in old(agent.memories)
              ==> fresh(agent.memories[TaskFor(context, created).contextId])
      ensures forall c :: c != TaskFor(context, created).contextId ==> agent.History(c) == old(agent.History(c))
    {
      var task := TaskFor(context, created);
      ghost var history := agent.History(task.contextId);
      ghost var stored := agent.visualFindings;
      ghost var reply := Medical.FinalResponse(query, images, history, stored, task.contextId, b);
      assert reply == Reply(context, created, history, stored, b);
      assert (if context.currentTask.None? then [A2A.TaskCreated(task)] else []) == CreatedEvents(context, created);
      Run(context.currentTask.None?, query, images, task, queue, b);
      assert agent.History(task.contextId) == history + [Medical.Exchange(query, reply)];
      assert agent.visualFindings
             == if images != [] then stored[task.contextId := Medical.VisualFindings(images, b.vision)] else stored;
    }

    /** `execute`. An invalid request raises InvalidParams before anything is
        enqueued or remembered. Otherwise a task is created and enqueued only
        when the request has none, the agent streams under the task's context,
        and its items are dispatched. `created` stands for the task that
        `new_task` would build from the message. */
    method Execute(context: A2A.RequestContext, queue: A2A.EventQueue, created: A2A.Task, b: Medical.Backends)
      returns (raised: Option<A2A.ServerError>)
      requires agent.Valid()
      modifies queue, agent, agent.memories.Values
      ensures agent.Valid()
      ensures raised == if RequestInvalid(context.message) then Some(A2A.InvalidParams) else None
      ensures raised.Some? ==>
                queue.events == old(queue.events) && unchanged(agent) && unchanged(old(agent.memories.Values))
      ensures raised.None? ==>
                queue.events == old(queue.events) + CreatedEvents(context, created)
                  + Dispatched(Medical.ProgressItems(|ImagesOf(MessageParts(context.message))|,
                      Reply(context, created, old(agent.History(TaskFor(context, created).contextId)),
                            old(agent.visualFindings), b)), TaskFor(context, created))
      ensures raised.None? ==>
                agent.History(TaskFor(context, created).contextId)
                == old(agent.History(TaskFor(context, created).contextId))
                   + [Medical.Exchange(Query(context.message),
                        Reply(context, created, old(agent.History(TaskFor(context, created).contextId)),
                              old(agent.visualFindings), b))]
      ensures raised.None? ==>
                agent.visualFindings
                == if ImagesOf(MessageParts(context.message)) != [] then
                     old(agent.visualFindings)[TaskFor(context, created).contextId :=
                       Medical.VisualFindings(ImagesOf(MessageParts(context.message)), b.vision)]
                   else old(agent.visualFindings)
      ensures raised.None? ==> agent.memories.Keys == old(agent.memories).Keys + {TaskFor(context, created).contextId}
      ensures raised.None? ==> forall c :: c in old(agent.memories) ==> agent.memories[c] == old(agent.memories[c])
      ensures raised.None? && TaskFor(context, created).contextId !in old(agent.memories)
              ==> fresh(agent.memories[TaskFor(context, created).contextId])
      ensures raised.None? ==>
                forall c :: c != TaskFor(context, created).contextId ==> agent.History(c) == old(agent.History(c))
    {
      var error, query, images := Prepare(context);
      if error {
        return Some(A2A.InvalidParams);
      }
      assert agent.memories == old(agent.memories) && agent.visualFindings == old(agent.visualFindings);
      assert forall c :: agent.History(c) == old(agent.History(c));
      RunRequest(context, created, query, images, queue, b);
      raised := None;
    }

    /** `cancel`: always refused, and nothing is enqueued. */
    method Cancel(context: A2A.RequestContext, queue: A2A.EventQueue) returns (raised: A2A.ServerError)
      ensures raised == A2A.UnsupportedOperation
    {
      raised := A2A.UnsupportedOperation;
    }
  }
}
