/** The tool endpoint of app/routers/mcp.py: a fixed table of tools, their
    definitions, and the mapping of a tool's result or exception to a
    `{content | error}` response. */
module Mcp {
  import opened Wrappers
  import opened Text
  import opened Exceptions
  import opened Schemas
  import opened Ollama

  /** The tools `TOOLS_MAP` knows. */
  datatype Tool = GenerateFlashcardsAI

  const GenerateFlashcardsAIName := "generateFlashcardsAI"

  const GenerateFlashcardsAIDescription :=
    "Generates flashcards (question-answer pairs) from provided "
    + "source text and a specified number of flashcards."

  /** `TOOLS_MAP`: tool name to tool. */
  const ToolsMap: map<string, Tool> := map[GenerateFlashcardsAIName := GenerateFlashcardsAI]

  /** A tool definition, without its input and output JSON schemas. */
  datatype ToolDefinition = ToolDefinition(name: string, description: string)

  /** The `content` of a successful response: `{"flashcards": ...}`. */
  datatype ToolContent = FlashcardsContent(flashcards: seq<Draft>)

  /** The `error` of a failed response: `{"message": ..., "code": ...}`. */
  datatype ToolError = ToolError(message: string, code: string)

  datatype ToolExecuteResponse = ToolExecuteResponse(content: Option<ToolContent>, error: Option<ToolError>)

  /** What validating the request's parameters as a `FlashcardGenerateRequest`
      gives: the text and the count, or the validation error's text. */
  datatype Validation = Validated(text: string, count: int) | Rejected(message: string)

  /** `get_tool_definitions`: one definition per tool of the table. */
  function GetToolDefinitions(): (r: seq<ToolDefinition>)
    ensures |r| == 1 && r[0].name == "generateFlashcardsAI"
  {
    [ToolDefinition(GenerateFlashcardsAIName, GenerateFlashcardsAIDescription)]
  }

  /** The tools that are defined are exactly the tools that can be run. */
  lemma DefinitionsMatchTools()
    ensures forall d :: d in GetToolDefinitions() ==> d.name in ToolsMap
    ensures forall name :: name in ToolsMap ==> exists d :: d in GetToolDefinitions() && d.name == name
  {
    var d := GetToolDefinitions()[0];
    assert d in GetToolDefinitions();
  }

  /** `generate_flashcards_ai_function` once the generator has answered `g`:
      its list becomes the content; an HTTP exception passes through; any
      other exception becomes an HTTP 500. */
  function GenerateFlashcardsAiFunction(g: GenOutcome): (r: Result<ToolContent, Exc>)
    ensures g.Returned? <==> r.Success?
    ensures r.Success? ==> r.value.flashcards == g.drafts
    ensures r.Failure? ==> r.error.IsHttp()
    ensures g.GeneratorRaised? && g.error.IsHttp() ==> r.error == g.error
    ensures g.GeneratorRaised? && !g.error.IsHttp() ==>
      r.error == Http(HTTP_500_INTERNAL_SERVER_ERROR, "Error generating flashcards: " + Str(g.error))
  {
    match g
    case Returned(drafts) => Success(FlashcardsContent(drafts))
    case GeneratorRaised(e) =>
      if e.IsHttp() then Failure(e)
      else Failure(Http(HTTP_500_INTERNAL_SERVER_ERROR, "Error generating flashcards: " + Str(e)))
  }

  /** The `except` clauses of `execute_tool`: an HTTP exception's detail and
      status, anything else as an unexpected error with code "500". */
  function ErrorResponse(e: Exc): (r: ToolExecuteResponse)
    ensures r.content.None? && r.error.Some?
    ensures e.IsHttp() ==> r.error.value == ToolError(e.detail, Decimal(e.status))
    ensures !e.IsHttp() ==> r.error.value == ToolError("An unexpected error occurred: " + Str(e), "500")
  {
    if e.IsHttp() then ToolExecuteResponse(None, Some(ToolError(e.detail, Decimal(e.status))))
    else ToolExecuteResponse(None, Some(ToolError("An unexpected error occurred: " + Str(e), "500")))
  }

  /** `execute_tool(toolName, parameters)`: `validation` is what validating
      the parameters gives and `generator` the generator the tool calls. An
      unknown tool is an HTTP 400 raised out of the endpoint; every other
      outcome is a response. */
  function ExecuteTool(toolName: string, validation: Validation, generator: (string, int) -> GenOutcome)
    : (r: Result<ToolExecuteResponse, Exc>)
  {
    if toolName !in ToolsMap then
      Failure(Http(HTTP_400_BAD_REQUEST, "Tool '" + toolName + "' not found."))
    else match ToolsMap[toolName]
      case GenerateFlashcardsAI =>
        match validation
        case Rejected(message) => Success(ErrorResponse(OtherException(message)))
        case Validated(text, count) =>
          match GenerateFlashcardsAiFunction(generator(text, count))
          case Success(content) => Success(ToolExecuteResponse(Some(content), None))
          case Failure(e) => Success(ErrorResponse(e))
  }

  /** An unknown tool is refused with a 400 before anything runs. */
  lemma ExecuteUnknownTool(toolName: string, validation: Validation, generator: (string, int) -> GenOutcome)
    requires toolName != "generateFlashcardsAI"
    ensures ExecuteTool(toolName, validation, generator) ==
      Failure(Http(HTTP_400_BAD_REQUEST, "Tool '" + toolName + "' not found."))
  {
  }

  /** For the known tool with valid parameters, the generator's list, from
      the call with the request's text and count, is the content, and there
      is no error. */
  lemma ExecuteSuccess(text: string, count: int, generator: (string, int) -> GenOutcome)
    requires generator(text, count).Returned?
    ensures ExecuteTool("generateFlashcardsAI", Validated(text, count), generator) ==
      Success(ToolExecuteResponse(Some(FlashcardsContent(generator(text, count).drafts)), None))
  {
  }

  /** The error responses of the known tool: an HTTP exception of the
      generator gives its detail and status code; any other exception of the
      generator is first wrapped by the tool, so it arrives as a "500" whose
      message starts "Error generating flashcards: "; a validation error is
      an unexpected error with code "500". */
  lemma ExecuteErrors(text: string, count: int, generator: (string, int) -> GenOutcome, message: string)
    ensures var g := generator(text, count);
      g.GeneratorRaised? && g.error.IsHttp() ==>
        ExecuteTool("generateFlashcardsAI", Validated(text, count), generator) ==
          Success(ToolExecuteResponse(None, Some(ToolError(g.error.detail, Decimal(g.error.status)))))
    ensures var g := generator(text, count);
      g.GeneratorRaised? && !g.error.IsHttp() ==>
        ExecuteTool("generateFlashcardsAI", Validated(text, count), generator) ==
          Success(ToolExecuteResponse(None, Some(ToolError("Error generating flashcards: " + Str(g.error), "500"))))
    ensures ExecuteTool("generateFlashcardsAI", Rejected(message), generator) ==
      Success(ToolExecuteResponse(None, Some(ToolError("An unexpected error occurred: " + message, "500"))))
  {
    StatusCodeDecimals();
  }

  /** With the placeholder generator the tool always answers with content,
      even for a count of zero or less, where the content is empty. */
  lemma ExecuteWithPlaceholder(text: string, count: int)
    ensures var r := ExecuteTool("generateFlashcardsAI", Validated(text, count),
                                 (s: string, n: int) => Returned(PlaceholderDrafts(n)));
      && r.Success? && r.value.error.None? && r.value.content.Some?
      && |r.value.content.value.flashcards| == (if count > 0 then count else 0)
  {
    PlaceholderShape(count);
  }
}
