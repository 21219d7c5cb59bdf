# A2A medical and image-generation agents: executors, agent state and cache

This project models in Dafny the request-handling core of two A2A sample agents.

The **medical agent** (`samples/python/agents/medical_Images/app`) has an executor that takes a request message apart. It collects the text parts (joined by spaces and stripped) and the image and inline-file parts, base64-encoding raw bytes. It rejects a request with neither text nor images and falls back to a default query for an image-only request. It creates the task when the request has none, and turns every item the agent streams into an event on the queue: a working update, a final input-required update, or the `medical_analysis` artifact followed by completion. The agent itself does the following:
- normalises MIME types;
- keeps only the usable images before asking the vision model;
- keeps one conversation memory and one set of visual findings per context;
- always yields the same sequence of progress items, ending in the completed answer.

The **image-generation agent** (`samples/python/agents/images/app`) has an executor that packages the agent's result as exactly one artifact of a completed task. That artifact is the image as a file part, or a text part explaining the failure. An exception from the agent becomes a `ValueError` server error, and nothing is enqueued. Validation always passes, cancelling is always refused, and `get_metrics` reports a session's image count from the process-wide `InMemoryCache` singleton. That singleton is a key/value store that keeps insertion order.

The language model, the web search, the summarising memory and the image agent's calls are foreign. The model receives them as function-valued parameters (`Medical.Backends`, `ImageGeneration.ImageAgent`), so every result is stated in terms of what those functions answer. The A2A library's `TaskUpdater` and event queue are represented by an append-only sequence of abstract events (`A2A.EventQueue`).

Files:
- `wrappers.dfy`: `Option` and `Result`.
- `base64.dfy`: standard base64 with padding (section 4 of RFC 4648) and a canonical decoder used as its inverse. The decoder accepts only the alphabet, whole quanta and final padding. It also requires the bits that padding leaves unused to be zero.
- `pystr.dfy`: Python's `str.isspace`, `strip()`, `" ".join` and decimal formatting.
- `a2a.dfy`: parts, messages, tasks, artifacts, events, server errors and the queue.
- `in_memory_cache.dfy`: `InMemoryCache` and its class object.
- `medical_agent.dfy`: `MedicalAgent`.
- `medical_agent_executor.dfy`: `MedicalAgentExecutor`.
- `images_agent_executor.dfy`: `ImageGenerationAgentExecutor`.

## Model

| member | source | states |
|---|---|---|
| `Cache.InMemoryCache.constructor` | samples/python/agents/images/app/in_memory_cache.py:12-17 | a new store is empty and its key order is empty |
| `Cache.InMemoryCache.Get` | samples/python/agents/images/app/in_memory_cache.py:19-29 | the stored value for a present key; None for a key never set or deleted |
| `Cache.InMemoryCache.Set` | samples/python/agents/images/app/in_memory_cache.py:31-39 | the key maps to the new value, overwriting any earlier one; every other entry is unchanged; a new key goes last in the key order; the store stays well formed |
| `Cache.InMemoryCache.Delete` | samples/python/agents/images/app/in_memory_cache.py:41-54 | returns True and removes the entry exactly when the key was present; otherwise returns False and nothing changes; no other entry changes |
| `Cache.WithoutDistinct` | samples/python/agents/images/app/in_memory_cache.py:51-53 | removing a key from distinct keys leaves them distinct |
| `Cache.WithoutAbsent` | samples/python/agents/images/app/in_memory_cache.py:51-54 | removing an absent key leaves the key order as it was |
| `Cache.InMemoryCache.Clear` | samples/python/agents/images/app/in_memory_cache.py:56-58 | afterwards no key is stored and the key list is empty |
| `Cache.InMemoryCache.Keys` | samples/python/agents/images/app/in_memory_cache.py:60-62 | every stored key exactly once, in insertion order, and nothing else |
| `Cache.InMemoryCache.Contains` | samples/python/agents/images/app/in_memory_cache.py:64-66 | true exactly when the key is stored |
| `Cache.InMemoryCacheClass.New` | samples/python/agents/images/app/in_memory_cache.py:12-17 | the first construction makes the instance with an empty store; every later one returns that same instance with its store untouched |
| `Cache.SharedInstance` | samples/python/agents/images/app/in_memory_cache.py:12-39 | a value set through one construction is read back through the next: all constructions share one store |
| `Base64.DecodeEncode` | samples/python/agents/medical_Images/app/agent.py:89-91 | base64 encoding loses nothing: the canonical decoder gives back the input bytes |
| `Base64.EncodeLength` | samples/python/agents/medical_Images/app/agent.py:89-91 | four output characters for every started group of three bytes |
| `Base64.EncodeAlphabet` | samples/python/agents/medical_Images/app/agent.py:89-91 | every output character is in the RFC 4648 alphabet or is '=' padding |
| `Base64.EncodeEmptyIff` | samples/python/agents/medical_Images/app/agent.py:89-91 | the encoding is empty exactly when the bytes are |
| `Base64.BlockRoundTrip` | samples/python/agents/medical_Images/app/agent_executor.py:55 | one full quantum decodes back to its three bytes |
| `PyStr.StripLeft` | samples/python/agents/medical_Images/app/agent_executor.py:181 | the result is a suffix of the input, what was dropped is whitespace, and the result starts with a non-space |
| `PyStr.StripRight` | samples/python/agents/medical_Images/app/agent_executor.py:181 | the result is a prefix of the input, what was dropped is whitespace, and the result ends with a non-space |
| `PyStr.Strip` | samples/python/agents/medical_Images/app/agent_executor.py:181 | a non-empty result begins and ends with a non-space |
| `PyStr.StripEmptyIff` | samples/python/agents/medical_Images/app/agent_executor.py:181 | stripping leaves nothing exactly when the string is all whitespace |
| `PyStr.StripIdempotent` | samples/python/agents/medical_Images/app/agent_executor.py:181 | stripping twice is stripping once |
| `PyStr.JoinAllSpace` | samples/python/agents/medical_Images/app/agent_executor.py:181 | the space-joined text is all whitespace exactly when every piece is |
| `PyStr.NatToString` | samples/python/agents/medical_Images/app/agent.py:352 | the count prints as decimal digits with no leading zero, and those digits denote the count |
| `Medical.GetMimeType` | samples/python/agents/medical_Images/app/agent.py:97-105 | JPEG, PNG, WebP and GIF map to themselves; anything else, a missing type included, maps to PNG; the result is always one of the four |
| `Medical.GetMimeTypeIdempotent` | samples/python/agents/medical_Images/app/agent.py:97-105 | normalising twice is normalising once |
| `Medical.UsablePayload` | samples/python/agents/medical_Images/app/agent.py:145-155 | an image is used exactly when its payload is non-empty bytes or a non-empty string; a string is used as it is; bytes are encoded so that decoding restores them |
| `Medical.ImageUrlsCount` | samples/python/agents/medical_Images/app/agent.py:142-172 | one data URL per usable image and none for the others |
| `Medical.ImageUrlsEmptyIff` | samples/python/agents/medical_Images/app/agent.py:142-174 | no URL is produced exactly when no image is usable |
| `Medical.ImageUrlsWellFormed` | samples/python/agents/medical_Images/app/agent.py:157-163 | every URL is `data:<supported mime>;base64,<non-empty payload>` |
| `Medical.PlanAnalysis` | samples/python/agents/medical_Images/app/agent.py:119-174 | an empty list gets the no-images text and a list with nothing usable gets the error text; the vision model is asked exactly when some image is usable, and then with the URLs of the usable images |
| `Medical.NoModelWithoutUsableImages` | samples/python/agents/medical_Images/app/agent.py:119-174 | without a usable image the findings do not depend on the model and are one of the two fixed texts |
| `Medical.AnalyzeImages` | samples/python/agents/medical_Images/app/agent.py:107-187 | the loop that skips unusable images computes the findings of `PlanAnalysis`; an empty list yields the no-images text |
| `Medical.MemoryContext` | samples/python/agents/medical_Images/app/agent.py:69-82 | a context with nothing saved gets the first-consultation text |
| `Medical.FindingsUsed` | samples/python/agents/medical_Images/app/agent.py:368-373 | without images the stored findings for the context are reused, or the no-images text when none are stored |
| `Medical.ProgressItems` | samples/python/agents/medical_Images/app/agent.py:346-433 | statuses are analyzing, analyzing (only with images), classifying, searching, generating and completed; only the last item completes the task and carries the reply; no item asks for input |
| `Medical.ConversationMemory.SaveContext` | samples/python/agents/medical_Images/app/agent.py:84-87 | saving appends exactly one exchange |
| `Medical.MedicalAgent.constructor` | samples/python/agents/medical_Images/app/agent.py:53-57 | an agent starts with no memories and no stored findings |
| `Medical.MedicalAgent.GetOrCreateMemory` | samples/python/agents/medical_Images/app/agent.py:59-67 | a memory is created, fresh and empty, only for an absent context; a present one is returned as it is; no other context changes |
| `Medical.MedicalAgent.GetMemoryContext` | samples/python/agents/medical_Images/app/agent.py:69-82 | the text is the rendering of what was saved before; at most the context's own memory is created |
| `Medical.MedicalAgent.SaveToMemory` | samples/python/agents/medical_Images/app/agent.py:84-87 | one exchange is appended to this context's history and no other context's history changes; existing contexts keep their memory objects, and a memory made for a new context is a new object |
| `Medical.MedicalAgent.AnalysisStep` | samples/python/agents/medical_Images/app/agent.py:344-373 | with images, two analysis items are produced and the context's findings are overwritten with the fresh ones; without, stored findings are reused and the map is not written |
| `Medical.MedicalAgent.Stream` | samples/python/agents/medical_Images/app/agent.py:321-433 | yields exactly `ProgressItems` for the reply computed from the earlier history and findings; overwrites the context's findings only when images came; appends the exchange to this context's memory exactly once and to no other; existing contexts keep their memory objects, and a new context's memory is a new object |
| `MedicalExecution.Encoded` | samples/python/agents/medical_Images/app/agent_executor.py:53-55 | byte payloads become base64 text that decodes back to them; other payloads pass through |
| `MedicalExecution.PartImage` | samples/python/agents/medical_Images/app/agent_executor.py:46-108 | an image part or a file part with inline bytes gives one image, never raw bytes; URI files, unrecognised files and other parts give none |
| `MedicalExecution.ImagesOfEmptyIff` | samples/python/agents/medical_Images/app/agent_executor.py:40-143 | no image is extracted exactly when no part carries one |
| `MedicalExecution.ImagesOfEncoded` | samples/python/agents/medical_Images/app/agent_executor.py:40-87 | at most one image per part, and no image carries raw bytes: bytes were encoded, while a string or a missing payload is passed on unchecked |
| `MedicalExecution.ExtractImages` | samples/python/agents/medical_Images/app/agent_executor.py:24-152 | the loop extracts the images of the parts in message order; a missing message or one without parts gives none |
| `MedicalExecution.TextsOfAllSpace` | samples/python/agents/medical_Images/app/agent_executor.py:166-179 | the collected texts are all blank exactly when every text part is |
| `MedicalExecution.ExtractedTextEmptyIff` | samples/python/agents/medical_Images/app/agent_executor.py:161-183 | the extracted text is empty exactly when every text part is whitespace, vacuously so without text parts |
| `MedicalExecution.ExtractText` | samples/python/agents/medical_Images/app/agent_executor.py:154-183 | the loop gives the text parts, in order, joined by single spaces and stripped; a missing message or one without parts gives "" |
| `MedicalExecution.RequestInvalidIff` | samples/python/agents/medical_Images/app/agent_executor.py:185-200 | a request is invalid exactly when no part contributes non-blank text or an image |
| `MedicalExecution.ValidateRequest` | samples/python/agents/medical_Images/app/agent_executor.py:185-200 | reports an error exactly when there is neither text nor an image |
| `MedicalExecution.EffectiveQuery` | samples/python/agents/medical_Images/app/agent_executor.py:227-229 | a non-empty text is the query; an empty text with images becomes the default query |
| `MedicalExecution.QueryOfValidRequest` | samples/python/agents/medical_Images/app/agent_executor.py:219-229 | a request that passes validation reaches the agent with a query that is non-empty and does not start with whitespace |
| `MedicalExecution.DispatchedFinalLast` | samples/python/agents/medical_Images/app/agent_executor.py:258-293 | whatever the items, no event but the last is final |
| `MedicalExecution.DispatchedStopsAtTerminal` | samples/python/agents/medical_Images/app/agent_executor.py:270-293 | items after the first completing or input-requiring item are never dispatched |
| `MedicalExecution.DispatchedRun` | samples/python/agents/medical_Images/app/agent_executor.py:258-293 | progress items closed by a completed one give a working update each, then the `medical_analysis` artifact with the last content and the final completion |
| `MedicalExecution.StreamEvents` | samples/python/agents/medical_Images/app/agent_executor.py:250-293 | one `stream` run is dispatched as working updates, the artifact holding the reply and the completion, with only the last event final |
| `MedicalExecution.DispatchItems` | samples/python/agents/medical_Images/app/agent_executor.py:250-293 | the loop, which breaks at a terminal item, appends exactly the dispatched events |
| `MedicalExecution.Prepare` | samples/python/agents/medical_Images/app/agent_executor.py:219-229 | validation result, then the defaulted query and the images of a valid request |
| `MedicalExecution.MedicalAgentExecutor.constructor` | samples/python/agents/medical_Images/app/agent_executor.py:21-22 | the executor owns a new agent with no state |
| `MedicalExecution.MedicalAgentExecutor.StreamAndDispatch` | samples/python/agents/medical_Images/app/agent_executor.py:244-293 | the agent's progress items for this query are dispatched in order and the exchange is remembered for the task's context; the stored findings of that context are replaced exactly when images came with the query; the context gains a memory if it had none, as a new object; existing contexts keep their memory objects; every other context's history is unchanged |
| `MedicalExecution.MedicalAgentExecutor.FollowUp` | samples/python/agents/medical_Images/app/agent.py:344-375 | two requests in one context, the first with images and the second without: the second is answered with the findings the first stored and with the first exchange in its memory context, and both exchanges are remembered in order |
| `MedicalExecution.MedicalAgentExecutor.Execute` | samples/python/agents/medical_Images/app/agent_executor.py:202-302 | InvalidParams exactly for an invalid request, with nothing enqueued or remembered; otherwise a task-created event only when there is no current task, then the dispatched events of the agent's run under the task's context, and the exchange remembered; the task context's findings are replaced by the new ones exactly when the request carries images; the context gains a memory if it had none, as a new object; existing contexts keep their memory objects; every other context's history is unchanged |
| `MedicalExecution.MedicalAgentExecutor.Cancel` | samples/python/agents/medical_Images/app/agent_executor.py:304-309 | always UnsupportedOperation |
| `ImageGeneration.ResponseParts` | samples/python/agents/images/app/agent_executor.py:109-144 | exactly one part: the image file (bytes, MIME type, id as name) exactly when there is a record without an error; otherwise the record's error, or "failed to generate image" without a record |
| `ImageGeneration.FailureTextNeverEmpty` | samples/python/agents/images/app/agent_executor.py:138-144 | a failure part always has a non-empty text |
| `ImageGeneration.Outcome` | samples/python/agents/images/app/agent_executor.py:91-118 | when the agent answers, the response is a single part |
| `ImageGeneration.ValidateRequest` | samples/python/agents/images/app/agent_executor.py:303-331 | never reports an error |
| `ImageGeneration.Execute` | samples/python/agents/images/app/agent_executor.py:41-199 | never raises InvalidParams; on success exactly one completed task with the `image_<task id>` artifact and the incoming message as history is enqueued; on an agent exception a ValueError with "Error invoking agent: " and the message, and nothing enqueued |
| `ImageGeneration.Cancel` | samples/python/agents/images/app/agent_executor.py:274-301 | always UnsupportedOperation |
| `ImageGeneration.MetricsFor` | samples/python/agents/images/app/agent_executor.py:345-351 | `total_images` is the entry's length, 0 when it is absent or empty; a truthy entry without a length ends in an error result |
| `ImageGeneration.GetMetrics` | samples/python/agents/images/app/agent_executor.py:333-371 | a failed import gives only the context id and the error; otherwise the metrics of the cache's current entry, with no entry of the cache changed; on first use a new, empty cache is made and the count is 0 |

## Left out

- Async and concurrency: `async for` over `stream` is a sequential run, and `stream` is modelled as one method returning all its items. Since the executor breaks only at the last item, which is the one completing the task, this has the same effect.
- The A2A library: `TaskUpdater`, `new_task`, `completed_task`, `new_artifact`, the task store and the task state machine are not part of this model. An update becomes an abstract `A2A.Event`, and the task `new_task` builds is a parameter of `Execute`. Its own checks on the message and its generated ids are not modelled, and neither are artifact ids.
- LangSmith: the `create_feedback` calls and `@traceable` are left out. Each is wrapped in a handler that swallows its errors, so none changes what the executor does.
- Logging and `print`, and the contents of the prompts sent to the model.
- The language model, the web search and `ConversationSummaryBufferMemory` are functions of what they are given. The memory is seen only through the exchanges saved into it (`recall` renders them), so its summarisation and token limit are not modelled.
- `Medical.MedicalAgent.Stream`: exceptions raised inside `stream` are not modelled. Two calls can raise: building the `ConversationSummaryBufferMemory` for a new context (agent.py:62-66, reached at agent.py:71) and `save_context` (agent.py:84-87, reached at agent.py:423). Neither is inside a `try`. If one raises, `stream` stops after the items already yielded and nothing is saved. The other backend calls are wrapped so that they return an error text, which is part of what the backend function answers.
- `MedicalExecution.MedicalAgentExecutor.Execute`: returns no error for every valid request. It does not model the InternalError raised (agent_executor.py:295-297) when `stream` fails as above. In that case the working updates already dispatched stay on the queue, with no artifact and no completion.
- `MedicalExecution.PartImage`: the class-name fallback of image extraction (`ImagePart`/`FilePart` detected by class name when `kind` does not say so) is not modelled separately. In this model a part's constructor is both its kind and its class, so that branch is never reached.
- `decode_base64_image` and `encode_image` of the medical agent are not separate members: `encode_image` is `Base64.Encode`, and Python's lenient `b64decode` is not modelled. `Base64.Decode` accepts only canonical encodings, with zero bits where padding leaves a character partly unused. It is used only to state that encoding loses nothing.
- `ImageGeneration.GetMetrics`: whether `from in_memory_cache import InMemoryCache` succeeds depends on the module search path at run time. It is a parameter: its failure message, and the class object it yields. When the application runs as the `app` package, that class may be a second copy of the cache class with its own singleton. The model does not decide this.
- `ImageGeneration.Execute`: the exception raised when packaging the response (building the parts or the event) is not modelled. Only the agent's two calls can fail.
- `ImageGeneration.ImageAgent`: `ImageGenerationAgent.invoke` and `get_image_data` are foreign calls, so their own behaviour is not part of this model.
- The medical agent's `SUPPORTED_CONTENT_TYPES`, its prompt texts and its model settings are constants the modelled code does not consult.
