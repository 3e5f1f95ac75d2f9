/**
 * The model-service client: the API-key check made before any request, the
 * classification of thrown errors, the shape of the quote-extraction result,
 * the assembly of the visualization request and the scan of its response.
 * The calls themselves are not modelled: their outcome is an input.
 */
module Gemini {
  import opened Base
  import opened Types
  import opened Text

  /** The one error the service raises to its callers (`KEY_NOT_FOUND`). */
  datatype ServiceError = KeyNotFound

  /** How a call to the model service ended: a response, or a thrown error whose message may be missing. */
  datatype Outcome<T> = Responded(response: T) | Threw(message: Option<string>)

  /** A thrown error that points at the API key: "entity was not found" or "API key" in its message. */
  predicate IsKeyError(message: Option<string>): (b: bool)
    ensures b <==> (message.Some? &&
      exists i :: 0 <= i <= |message.value| && ("entity was not found" <= message.value[i..] || "API key" <= message.value[i..]))
  {
    message.Some? && (Contains(message.value, "entity was not found") || Contains(message.value, "API key"))
  }

  /** A message with either phrase anywhere in it is a key error. */
  lemma KeyErrorAnywhere(before: string, after: string)
    ensures IsKeyError(Some(before + "entity was not found" + after))
    ensures IsKeyError(Some(before + "API key" + after))
  {
    var m1 := before + "entity was not found" + after;
    assert "entity was not found" <= m1[|before|..];
    var m2 := before + "API key" + after;
    assert "API key" <= m2[|before|..];
  }

  /** A key error stays one when the client library prefixes the message with its own text. */
  lemma KeyErrorSurvivesPrefix(prefix: string, message: string)
    requires IsKeyError(Some(message))
    ensures IsKeyError(Some(prefix + message))
  {
    if Contains(message, "entity was not found") {
      ContainsInSuffix(prefix, message, "entity was not found");
    } else {
      ContainsInSuffix(prefix, message, "API key");
    }
  }

  /** The parsed body of an extraction response; its `tasks` field may be absent. */
  datatype ExtractionBody = ExtractionBody(tasks: Option<seq<PartialTask>>)

  /**
   * `parseQuoteToTasks`. An empty `apiKey` stands for a missing one; the
   * extraction call is only made when a key is present.
   */
  function ParseQuoteToTasks(apiKey: string, call: Outcome<ExtractionBody>): (r: Result<seq<PartialTask>, ServiceError>)
    ensures r.Err? <==> apiKey == "" || (call.Threw? && IsKeyError(call.message))
    ensures apiKey != "" && call.Responded? && call.response.tasks.Some? ==> r == Ok(call.response.tasks.value)
    ensures apiKey != "" && call.Responded? && call.response.tasks.None? ==> r == Ok([])
    ensures call.Threw? && r.Ok? ==> r.value == []
  {
    if apiKey == "" then Err(KeyNotFound)
    else match call
      case Responded(body) => Ok(body.tasks.GetOr([]))
      case Threw(message) => if IsKeyError(message) then Err(KeyNotFound) else Ok([])
  }

  /** One part of the visualization request. The fixed wording around the task summary is not modelled. */
  datatype RequestPart =
    | ImagePart(data: string, mimeType: string)
    | InstructionPart(taskSummary: string)

  /** `s.split(',')[1] || s`: the payload of a data URL, or the string itself. */
  function Base64Payload(s: string): (r: string)
    ensures ',' !in s ==> r == s
  {
    var segments := Split(s, ',');
    if ',' !in s then
      SplitWithoutSeparator(s, ',');
      s
    else if |segments| > 1 && segments[1] != "" then segments[1]
    else s
  }

  lemma SplitWithoutSeparator(s: string, c: char)
    requires c !in s
    ensures Split(s, c) == [s]
  {
  }

  /** For a data URL "header,payload" with a non-empty payload, the payload is what is sent. */
  lemma PayloadOfDataUrl(header: string, payload: string)
    requires ',' !in header && ',' !in payload && payload != ""
    ensures Base64Payload(header + "," + payload) == payload
  {
    SplitJoin([header, payload], ',');
    assert Join([header, payload], [',']) == header + "," + payload;
  }

  /** A data URL with an empty payload is sent whole. */
  lemma EmptyPayloadSendsWhole(header: string)
    requires ',' !in header
    ensures Base64Payload(header + ",") == header + ","
  {
    SplitJoin([header, ""], ',');
    assert Join([header, ""], [',']) == header + ",";
  }

  /** The summary line of one task. */
  function SummaryLine(t: ProjectTask): string
  {
    "- LIEU: " + t.location + " | PRODUIT: " + t.name + " (Ref: " + t.reference + ") | DETAILS: " + t.description
  }

  function SummaryLines(tasks: seq<ProjectTask>): (lines: seq<string>)
    ensures |lines| == |tasks|
  {
    seq(|tasks|, i requires 0 <= i < |tasks| => SummaryLine(tasks[i]))
  }

  /** `taskSummary`: the lines of all tasks, in order, joined by line breaks. */
  function TaskSummary(tasks: seq<ProjectTask>): (s: string)
    ensures tasks == [] ==> s == ""
    ensures forall i :: 0 <= i < |tasks| ==> Contains(s, SummaryLine(tasks[i]))
  {
    var lines := SummaryLines(tasks);
    forall i | 0 <= i < |tasks|
      ensures Contains(Join(lines, "\n"), SummaryLine(tasks[i]))
    {
      JoinContainsParts(lines, "\n", i);
    }
    Join(lines, "\n")
  }

  predicate SingleLine(t: ProjectTask)
  {
    '\n' !in t.location && '\n' !in t.name && '\n' !in t.reference && '\n' !in t.description
  }

  lemma SummaryLineIsSingleLine(t: ProjectTask)
    requires SingleLine(t)
    ensures '\n' !in SummaryLine(t)
  {
    assert '\n' !in "- LIEU: ";
    assert '\n' !in " | PRODUIT: ";
    assert '\n' !in " (Ref: ";
    assert '\n' !in ") | DETAILS: ";
  }

  /** Every task has its own line in the summary, in order, however many tasks there are. */
  lemma SummaryHasOneLinePerTask(tasks: seq<ProjectTask>)
    requires tasks != []
    requires forall i :: 0 <= i < |tasks| ==> SingleLine(tasks[i])
    ensures |Split(TaskSummary(tasks), '\n')| == |tasks|
    ensures forall i :: 0 <= i < |tasks| ==> Split(TaskSummary(tasks), '\n')[i] == SummaryLine(tasks[i])
  {
    var lines := SummaryLines(tasks);
    forall i | 0 <= i < |lines|
      ensures '\n' !in lines[i]
    {
      SummaryLineIsSingleLine(tasks[i]);
    }
    SplitJoin(lines, '\n');
  }

  function Min(a: int, b: int): int { if a <= b then a else b }

  /** The image parts of the first three products. */
  function TextureParts(products: seq<Product>): (parts: seq<RequestPart>)
    ensures |parts| == Min(3, |products|)
  {
    var limited := if |products| <= 3 then products else products[..3];
    seq(|limited|, i requires 0 <= i < |limited| => ImagePart(Base64Payload(limited[i].imageDisplay), "image/jpeg"))
  }

  /** The visualization request: the site photo, the textures of at most three products, then the instruction. */
  function BuildRequest(photo: string, products: seq<Product>, tasks: seq<ProjectTask>): (parts: seq<RequestPart>)
    ensures |parts| == 2 + Min(3, |products|)
    ensures parts[0] == ImagePart(Base64Payload(photo), "image/jpeg")
    ensures forall i :: 1 <= i <= Min(3, |products|) ==>
      parts[i] == ImagePart(Base64Payload(products[i - 1].imageDisplay), "image/jpeg")
    ensures parts[|parts| - 1] == InstructionPart(TaskSummary(tasks))
  {
    [ImagePart(Base64Payload(photo), "image/jpeg")] + TextureParts(products) + [InstructionPart(TaskSummary(tasks))]
  }

  /** Products past the third never reach the request. */
  lemma OnlyFirstThreeProductsSent(photo: string, products: seq<Product>, more: seq<Product>, tasks: seq<ProjectTask>)
    requires |products| == 3
    ensures BuildRequest(photo, products + more, tasks) == BuildRequest(photo, products, tasks)
  {
    var a := BuildRequest(photo, products + more, tasks);
    var b := BuildRequest(photo, products, tasks);
    assert |a| == |b| == 5;
    forall i | 1 <= i <= 3
      ensures a[i] == b[i]
    {
      assert (products + more)[i - 1] == products[i - 1];
    }
  }

  /** A part of a generated response; only whether it carries inline data matters here. */
  datatype InlineData = InlineData(data: string, mimeType: string)
  datatype ResponsePart = ResponsePart(text: Option<string>, inlineData: Option<InlineData>)
  datatype Content = Content(parts: Option<seq<ResponsePart>>)
  datatype Candidate = Candidate(content: Option<Content>)
  datatype GenerateResponse = GenerateResponse(candidates: Option<seq<Candidate>>)

  /** `response.candidates?.[0]?.content?.parts || []`: only the first candidate's parts are ever read. */
  function ResponseParts(response: GenerateResponse): (parts: seq<ResponsePart>)
    ensures parts == [] || (&& response.candidates.Some? && |response.candidates.value| > 0
                            && response.candidates.value[0].content == Some(Content(Some(parts))))
    ensures && response.candidates.Some? && |response.candidates.value| > 0
            && response.candidates.value[0].content.Some? && response.candidates.value[0].content.value.parts.Some?
            ==> parts == response.candidates.value[0].content.value.parts.value
  {
    match response.candidates
    case None => []
    case Some(cs) =>
      if cs == [] || cs[0].content.None? || cs[0].content.value.parts.None? then []
      else cs[0].content.value.parts.value
  }

  const PngDataUrlPrefix: string := "data:image/png;base64,"

  /** The image the service hands back: the first part with inline data, as a PNG data URL. */
  function FirstImage(parts: seq<ResponsePart>): (r: Option<string>)
    ensures r.None? <==> forall i :: 0 <= i < |parts| ==> parts[i].inlineData.None?
    ensures r.Some? ==>
      exists i :: && 0 <= i < |parts| && parts[i].inlineData.Some?
                  && (forall j :: 0 <= j < i ==> parts[j].inlineData.None?)
                  && r.value == PngDataUrlPrefix + parts[i].inlineData.value.data
  {
    if parts == [] then None
    else if parts[0].inlineData.Some? then Some(PngDataUrlPrefix + parts[0].inlineData.value.data)
    else
      var r := FirstImage(parts[1..]);
      assert forall i :: 1 <= i < |parts| ==> parts[i] == parts[1..][i - 1];
      r
  }

  /** The response loop: scans the parts and stops at the first one with inline data. */
  method ScanForImage(parts: seq<ResponsePart>) returns (r: Option<string>)
    ensures r == FirstImage(parts)
  {
    var i := 0;
    while i < |parts|
      invariant 0 <= i <= |parts|
      invariant FirstImage(parts) == FirstImage(parts[i..])
    {
      if parts[i].inlineData.Some? {
        return Some(PngDataUrlPrefix + parts[i].inlineData.value.data);
      }
      assert parts[i..][1..] == parts[i + 1..];
      i := i + 1;
    }
    return None;
  }

  /**
   * `generateVisualization`. Returns the request it would send (none when the
   * key is missing, since it stops before building one) and its result: the
   * generated image, none for a soft failure, or `KeyNotFound`.
   */
  method GenerateVisualization(apiKey: string, photo: string, products: seq<Product>, tasks: seq<ProjectTask>,
                               call: Outcome<GenerateResponse>)
    returns (request: Option<seq<RequestPart>>, r: Result<Option<string>, ServiceError>)
    ensures apiKey == "" <==> request.None?
    ensures request.Some? ==> request.value == BuildRequest(photo, products, tasks)
    ensures r.Err? <==> apiKey == "" || (call.Threw? && IsKeyError(call.message))
    ensures apiKey != "" && call.Responded? ==> r == Ok(FirstImage(ResponseParts(call.response)))
    ensures call.Threw? && r.Ok? ==> r.value == None
  {
    if apiKey == "" {
      return None, Err(KeyNotFound);
    }
    request := Some(BuildRequest(photo, products, tasks));
    match call
    case Responded(response) =>
      var image := ScanForImage(ResponseParts(response));
      r := Ok(image);
    case Threw(message) =>
      r := if IsKeyError(message) then Err(KeyNotFound) else Ok(None);
  }

  /** The messages the service returns for an unknown project or a rejected key are key errors. */
  lemma KeyErrorMessages()
    ensures IsKeyError(Some("Requested entity was not found."))
    ensures IsKeyError(Some("API key not valid. Please pass a valid API key."))
    ensures !IsKeyError(None)
  {
    var m1 := "Requested entity was not found.";
    assert "entity was not found" <= m1[10..];
    var m2 := "API key not valid. Please pass a valid API key.";
    assert "API key" <= m2[0..];
  }
}
