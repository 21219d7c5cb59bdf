/** The medical agent of medical_Images/app/agent.py: MIME normalisation,
    the image filtering of `analyze_images`, per-context conversation memory
    and visual findings, and the progress items that `stream` yields. The
    language model, the web search and the summarising memory are foreign:
    their answers come in through `Backends`. */
module Medical {
  import opened Wrappers
  import A2A
  import Base64
  import PyStr

  const NoImagesText := "No se proporcionaron imágenes para análisis."
  const NoUsableImagesText := "Error: No se pudieron procesar las imágenes proporcionadas."
  const FirstConsultText := "Primera consulta del paciente."
  const DefaultMimeType := "image/png"

  // The contents of the progress items `stream` yields.
  const FindingsReadyText := "Hallazgos visuales identificados."
  const ClassifyingText := "Clasificando consulta médica..."
  const SearchingText := "Buscando información médica relevante..."
  const GeneratingText := "Generando análisis médico completo..."

  function AnalyzingText(imageCount: nat): string {
    "Analizando " + PyStr.NatToString(imageCount) + " imagen(es) médica(s)..."
  }

  /** One image handed to the agent: the `{'data': ..., 'mime_type': ...}`
      dictionary the executor builds. */
  datatype ImageEntry = ImageEntry(data: A2A.Payload, mimeType: Option<string>)

  /** The `status` of a progress item. */
  datatype Status =
    | AnalyzingImages | Classifying | Searching | GeneratingResponse | StatusCompleted

  /** One dictionary yielded by `stream`. */
  datatype StreamItem = StreamItem(isTaskComplete: bool, requireUserInput: bool, content: string, status: Status)

  /** One exchange saved to a conversation memory. */
  datatype Exchange = Exchange(input: string, output: string)

  /** The foreign services, as functions of what they are given:
      the vision model on the image URLs, the memory's rendering of the saved
      exchanges, and the model or search calls of the four later steps. */
  datatype Backends = Backends(
    vision: seq<string> -> string,
    recall: seq<Exchange> -> string,
    classify: (string, string, string) -> string,
    searchQuery: (string, string, string) -> string,
    search: string -> string,
    respond: (string, string, string, string, string) -> string)

  // ---------------------------------------------------------------------
  // get_mime_type

  /** The keys of `get_mime_type`'s mapping, each of which maps to itself. */
  const SupportedMimeTypes: set<string> := {"image/jpeg", "image/png", "image/webp", "image/gif"}

  const MimeMapping: map<string, string> := map m | m in SupportedMimeTypes :: m

  predicate IsSupportedMime(m: string) {
    m in SupportedMimeTypes
  }

  /** `get_mime_type`: the four known image types map to themselves, anything
      else (including a missing type) to PNG. */
  function GetMimeType(contentType: Option<string>): (m: string)
    ensures IsSupportedMime(m)
    ensures contentType.Some? && IsSupportedMime(contentType.value) ==> m == contentType.value
    ensures !(contentType.Some? && IsSupportedMime(contentType.value)) ==> m == DefaultMimeType
  {
    if contentType.Some? && contentType.value in MimeMapping then MimeMapping[contentType.value]
    else DefaultMimeType
  }

  /** Normalising twice is normalising once. */
  lemma GetMimeTypeIdempotent(contentType: Option<string>)
    ensures GetMimeType(Some(GetMimeType(contentType))) == GetMimeType(contentType)
  {
  }

  // ---------------------------------------------------------------------
  // analyze_images

  /** `img.get('data') or img.get('bytes')` followed by the type test: non-empty
      bytes are base64-encoded, a non-empty string is taken as base64 already,
      and an empty or missing payload is skipped (the executor's dictionaries
      carry no 'bytes' key, so the fallback is None). */
  function UsablePayload(p: A2A.Payload): (r: Option<string>)
    ensures r.Some? <==> (p.Bytes? && p.raw != []) || (p.Str? && p.text != "")
    ensures p.Str? && r.Some? ==> r.value == p.text
    ensures p.Bytes? && r.Some? ==> Base64.Decode(r.value) == Some(p.raw)
  {
    match p
    case Bytes(b) => if b == [] then None else (Base64.DecodeEncode(b); Some(Base64.Encode(b)))
    case Str(s) => if s == "" then None else Some(s)
    case NoData => None
  }

  function DataUrl(mimeType: string, b64: string): string {
    "data:" + mimeType + ";base64," + b64
  }

  /** The image URLs sent to the vision model, in image order. */
  function ImageUrls(images: seq<ImageEntry>): seq<string>
    decreases |images|
  {
    if images == [] then []
    else
      var last := images[|images| - 1];
      ImageUrls(images[..|images| - 1])
        + match UsablePayload(last.data)
          case None => []
          case Some(b64) => [DataUrl(GetMimeType(last.mimeType), b64)]
  }

  predicate Usable(img: ImageEntry) {
    UsablePayload(img.data).Some?
  }

  /** How many of the images are usable. */
  function CountUsable(images: seq<ImageEntry>): nat
    decreases |images|
  {
    if images == [] then 0
    else CountUsable(images[..|images| - 1]) + if Usable(images[|images| - 1]) then 1 else 0
  }

  /** One URL for each usable image and none for the others. */
  lemma {:induction false} ImageUrlsCount(images: seq<ImageEntry>)
    ensures |ImageUrls(images)| == CountUsable(images)
    decreases |images|
  {
    if images != [] {
      ImageUrlsCount(images[..|images| - 1]);
    }
  }

  /** No URL is produced exactly when no image is usable. */
  lemma {:induction false} ImageUrlsEmptyIff(images: seq<ImageEntry>)
    ensures ImageUrls(images) == [] <==> forall i :: 0 <= i < |images| ==> !Usable(images[i])
    decreases |images|
  {
    if images != [] {
      var n := |images| - 1;
      var front := images[..n];
      ImageUrlsEmptyIff(front);
      assert forall i :: 0 <= i < n ==> front[i] == images[i];
    }
  }

  /** Every URL names a supported MIME type and carries base64 text. */
  lemma {:induction false} ImageUrlsWellFormed(images: seq<ImageEntry>)
    ensures forall u :: u in ImageUrls(images) ==>
              exists m, b :: IsSupportedMime(m) && b != "" && u == DataUrl(m, b)
    decreases |images|
  {
    if images != [] {
      ImageUrlsWellFormed(images[..|images| - 1]);
      var last := images[|images| - 1];
      match UsablePayload(last.data)
      case None =>
      case Some(b64) =>
        var u := DataUrl(GetMimeType(last.mimeType), b64);
        assert IsSupportedMime(GetMimeType(last.mimeType)) && b64 != "";
    }
  }

  /** What `analyze_images` does before any model call: answer with a fixed
      text, or ask the vision model about these URLs. */
  datatype VisionRequest = FixedReply(text: string) | AskModel(imageUrls: seq<string>)

  function PlanAnalysis(images: seq<ImageEntry>): (r: VisionRequest)
    ensures images == [] ==> r == FixedReply(NoImagesText)
    ensures images != [] && r.FixedReply? ==> r.text == NoUsableImagesText
    ensures r.AskModel? <==> exists i :: 0 <= i < |images| && Usable(images[i])
    ensures r.AskModel? ==> r.imageUrls == ImageUrls(images) && r.imageUrls != []
  {
    ImageUrlsEmptyIff(images);
    if images == [] then FixedReply(NoImagesText)
    else if ImageUrls(images) == [] then FixedReply(NoUsableImagesText)
    else AskModel(ImageUrls(images))
  }

  /** The findings `analyze_images` returns. */
  function VisualFindings(images: seq<ImageEntry>, vision: seq<string> -> string): string {
    match PlanAnalysis(images)
    case FixedReply(t) => t
    case AskModel(urls) => vision(urls)
  }

  /** When nothing is usable the vision model is not consulted: the findings
      are the same whatever the model would have said. */
  lemma NoModelWithoutUsableImages(images: seq<ImageEntry>, v1: seq<string> -> string, v2: seq<string> -> string)
    requires forall i :: 0 <= i < |images| ==> !Usable(images[i])
    ensures VisualFindings(images, v1) == VisualFindings(images, v2)
    ensures VisualFindings(images, v1) == if images == [] then NoImagesText else NoUsableImagesText
  {
  }

  /** `analyze_images`: builds the URL list image by image, skipping what is
      not usable, and consults the model only when something is left. */
  method AnalyzeImages(images: seq<ImageEntry>, vision: seq<string> -> string) returns (findings: string)
    ensures findings == VisualFindings(images, vision)
    ensures images == [] ==> findings == NoImagesText
  {
    if images == [] {
      return NoImagesText;
    }
    var urls: seq<string> := [];
    var i := 0;
    while i < |images|
      invariant 0 <= i <= |images|
      invariant urls == ImageUrls(images[..i])
    {
      var img := images[i];
      assert images[..i + 1][..i] == images[..i];
      var b64: string;
      match img.data {
        case Bytes(b) =>
          if b == [] { i := i + 1; continue; }
          b64 := Base64.Encode(b);
        case Str(s) =>
          if s == "" { i := i + 1; continue; }
          b64 := s;
        case NoData =>
          i := i + 1;
          continue;
      }
      var mimeType := GetMimeType(img.mimeType);
      urls := urls + [DataUrl(mimeType, b64)];
      i := i + 1;
    }
    assert images[..|images|] == images;
    if |urls| == 0 {
      return NoUsableImagesText;
    }
    findings := vision(urls);
  }

  // ---------------------------------------------------------------------
  // Conversation memory and the agent's per-context state

  /** `_get_memory_context`: the memory's rendering of what was saved, or the
      first-consultation text when nothing has been saved for the context. */
  function MemoryContext(history: seq<Exchange>, recall: seq<Exchange> -> string): (r: string)
    ensures history == [] ==> r == FirstConsultText
  {
    if history == [] then FirstConsultText else recall(history)
  }

  /** The findings `stream` works with: fresh ones when images came with the
      query, otherwise the stored ones for the context, otherwise the
      no-images text. */
  function FindingsUsed(images: seq<ImageEntry>, stored: map<string, string>, contextId: string,
                        vision: seq<string> -> string): (r: string)
    ensures images == [] && contextId in stored ==> r == stored[contextId]
    ensures images == [] && contextId !in stored ==> r == NoImagesText
  {
    if |images| > 0 then VisualFindings(images, vision)
    else if contextId in stored then stored[contextId]
    else NoImagesText
  }

  /** The last steps of `stream`: classification, search query, search and
      response, each fed with what the earlier steps produced. */
  function Answer(query: string, memoryContext: string, findings: string, b: Backends): string {
    var classification := b.classify(query, memoryContext, findings);
    var searchInfo := b.search(b.searchQuery(classification, findings, query));
    b.respond(query, memoryContext, classification, findings, searchInfo)
  }

  /** The final answer of `stream`, from the saved history and the stored
      findings. */
  function FinalResponse(query: string, images: seq<ImageEntry>, history: seq<Exchange>,
                         stored: map<string, string>, contextId: string, b: Backends): string
  {
    Answer(query, MemoryContext(history, b.recall), FindingsUsed(images, stored, contextId, b.vision), b)
  }

  function Progress(content: string, status: Status): StreamItem {
    StreamItem(false, false, content, status)
  }

  function Statuses(items: seq<StreamItem>): seq<Status> {
    seq(|items|, i requires 0 <= i < |items| => items[i].status)
  }

  /** The two image-analysis items, present only when there are images. */
  function AnalysisItems(imageCount: nat): seq<StreamItem> {
    if imageCount > 0 then
      [Progress(AnalyzingText(imageCount), AnalyzingImages), Progress(FindingsReadyText, AnalyzingImages)]
    else []
  }

  /** The items `stream` yields for `imageCount` images and the final reply:
      two image-analysis steps when there are images, then classifying,
      searching, generating and the completed answer. Only the last item
      completes the task and none asks for user input. */
  function ProgressItems(imageCount: nat, reply: string): (items: seq<StreamItem>)
    ensures Statuses(items) == (if imageCount > 0 then [AnalyzingImages, AnalyzingImages] else [])
                               + [Classifying, Searching, GeneratingResponse, StatusCompleted]
    ensures forall i :: 0 <= i < |items| - 1 ==> !items[i].isTaskComplete
    ensures items[|items| - 1].isTaskComplete && items[|items| - 1].content == reply
    ensures forall i :: 0 <= i < |items| ==> !items[i].requireUserInput
  {
    AnalysisItems(imageCount)
    + [Progress(ClassifyingText, Classifying),
       Progress(SearchingText, Searching),
       Progress(GeneratingText, GeneratingResponse),
       StreamItem(true, false, reply, StatusCompleted)]
  }

  /** A `ConversationSummaryBufferMemory`, seen through what is saved into it. */
  class ConversationMemory {
    var exchanges: seq<Exchange>

    constructor ()
      ensures exchanges == []
    {
      exchanges := [];
    }

    /** `save_context`. */
    method SaveContext(input: string, output: string)
      modifies this
      ensures exchanges == old(exchanges) + [Exchange(input, output)]
    {
      exchanges := exchanges + [Exchange(input, output)];
    }
  }

  class MedicalAgent {
    var memories: map<string, ConversationMemory>
    var visualFindings: map<string, string>

    /** No two contexts share a memory object. */
    ghost predicate Valid()
      reads this
    {
      forall c1, c2 :: c1 in memories && c2 in memories && c1 != c2 ==> memories[c1] != memories[c2]
    }

    constructor ()
      ensures Valid() && memories == map[] && visualFindings == map[]
    {
      memories := map[];
      visualFindings := map[];
    }

    /** What has been saved for a context so far. */
    function History(contextId: string): seq<Exchange>
      reads this, memories.Values
    {
      if contextId in memories then memories[contextId].exchanges else []
    }

    /** `_get_or_create_memory`: an entry is made only for an absent context;
        a present one is returned as it is, and no other context changes. */
    method GetOrCreateMemory(contextId: string) returns (memory: ConversationMemory)
      requires Valid()
      modifies this
      ensures Valid() && visualFindings == old(visualFindings)
      ensures contextId in memories && memories[contextId] == memory
      ensures contextId in old(memories) ==> memories == old(memories)
      ensures contextId !in old(memories) ==>
                fresh(memory) && memory.exchanges == [] && memories == old(memories)[contextId := memory]
    {
      if contextId !in memories {
        memory := new ConversationMemory();
        memories := memories[contextId := memory];
      }
      memory := memories[contextId];
    }

    /** `_get_memory_context`. */
    method GetMemoryContext(contextId: string, recall: seq<Exchange> -> string) returns (text: string)
      requires Valid()
      modifies this
      ensures Valid() && visualFindings == old(visualFindings)
      ensures memories.Keys == old(memories).Keys + {contextId}
      ensures forall c :: c in old(memories) ==> memories[c] == old(memories[c])
      ensures contextId !in old(memories) ==> fresh(memories[contextId]) && memories[contextId].exchanges == []
      ensures text == MemoryContext(old(History(contextId)), recall)
    {
      var memory := GetOrCreateMemory(contextId);
      text := MemoryContext(memory.exchanges, recall);
    }

    /** `_save_to_memory`: appends one exchange to this context's memory and
        to no other. */
    method SaveToMemory(contextId: string, query: string, response: string)
      requires Valid()
      modifies this, memories.Values
      ensures Valid() && visualFindings == old(visualFindings)
      ensures memories.Keys == old(memories).Keys + {contextId}
      ensures forall c :: c in old(memories) ==> memories[c] == old(memories[c])
      ensures forall c :: c in old(memories) && c != contextId ==> memories[c].exchanges == old(memories[c].exchanges)
      ensures contextId !in old(memories) ==> fresh(memories[contextId])
      ensures History(contextId) == old(History(contextId)) + [Exchange(query, response)]
    {
      var memory := GetOrCreateMemory(contextId);
      memory.SaveContext(query, response);
    }

    /** The image step of `stream`: with images, announce them, analyse them
        and store the findings for the context; without, reuse what is stored. */
    method AnalysisStep(contextId: string, images: seq<ImageEntry>, vision: seq<string> -> string)
      returns (items: seq<StreamItem>, findings: string)
      modifies this
      ensures memories == old(memories)
      ensures items == AnalysisItems(|images|)
      ensures findings == FindingsUsed(images, old(visualFindings), contextId, vision)
      ensures visualFindings == if |images| > 0 then old(visualFindings)[contextId := findings]
                                else old(visualFindings)
    {
      items := [];
      if |images| > 0 {
        items := items + [Progress(AnalyzingText(|images|), AnalyzingImages)];
        findings := AnalyzeImages(images, vision);
        visualFindings := visualFindings[contextId := findings];
        items := items + [Progress(FindingsReadyText, AnalyzingImages)];
      } else {
        findings := if contextId in visualFindings then visualFindings[contextId] else NoImagesText;
      }
    }

    /** `stream`: yields the progress items of `ProgressItems`, overwrites the
        stored findings for the context only when images came with the query,
        and saves the exchange to the context's memory exactly once. */
    method Stream(query: string, contextId: string, images: seq<ImageEntry>, b: Backends)
      returns (items: seq<StreamItem>)
      requires Valid()
      modifies this, memories.Values
      ensures Valid()
      ensures items == ProgressItems(|images|,
                         FinalResponse(query, images, old(History(contextId)), old(visualFindings), contextId, b))
      ensures visualFindings == if |images| > 0 then old(visualFindings)[contextId := VisualFindings(images, b.vision)]
                                else old(visualFindings)
      ensures memories.Keys == old(memories).Keys + {contextId}
      ensures forall c :: c in old(memories) ==> memories[c] == old(memories[c])
      ensures forall c :: c in old(memories) && c != contextId ==> memories[c].exchanges == old(memories[c].exchanges)
      ensures contextId !in old(memories) ==> fresh(memories[contextId])
      ensures History(contextId) == old(History(contextId))
                + [Exchange(query, FinalResponse(query, images, old(History(contextId)), old(visualFindings), contextId, b))]
    {
      ghost var history := History(contextId);
      ghost var stored := visualFindings;
      var memoryContext := GetMemoryContext(contextId, b.recall);
      ghost var memory := memories[contextId];
      assert contextId !in old(memories) ==> fresh(memory);
      var findings;
      items, findings := AnalysisStep(contextId, images, b.vision);
      assert memories[contextId] == memory;
      items := items + [Progress(ClassifyingText, Classifying), Progress(SearchingText, Searching),
                        Progress(GeneratingText, GeneratingResponse)];
      var finalResponse := Answer(query, memoryContext, findings, b);
      SaveToMemory(contextId, query, finalResponse);
      items := items + [StreamItem(true, false, finalResponse, StatusCompleted)];
      assert finalResponse == FinalResponse(query, images, history, stored, contextId, b);
    }
  }
}
