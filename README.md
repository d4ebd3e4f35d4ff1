# Flashcard sets: a verified model of the persistence and service core

The application stores, for each signed-in user, named **flashcard sets**. Each
set holds question/answer **flashcards**. Both live in two database tables:
`flashcard_sets` (id, name, owner) and `flashcards` (id, question, answer,
set id). This project models, in Dafny:

- the **CRUD layer** (`app/crud/crud.py`):
  - creating a set together with its cards, with the compensating delete when
    the card insert returns nothing;
  - the three owner-scoped reads;
  - updating one card;
  - deleting a set;
- the **service layer** (`app/services/flashcard_service.py`), which re-checks
  the name and turns every failure into `GenerationFailedError` or
  `SaveFailedError`, both HTTP 500;
- the **placeholder generator** (`app/services/ollama.py`), which returns
  `Question i` / `Answer i` pairs;
- the **tool endpoint** (`app/routers/mcp.py`): the tool table, the tool
  definitions, and how results and exceptions become `{content | error}`
  responses;
- the **request dependencies** (`app/dependencies.py`): the client
  configuration check, and the 401 that reading the user from the
  `access_token` cookie produces on any failure.

How the pieces are represented:

- **Tables.** They are a value `Tables` (rows in table order plus an id
  counter) and a class `Store.Db` whose methods are the writes the CRUD layer
  issues (set insert, card insert, set delete, card update). The reads are
  functions on `Tables`.
- **Database answers.** What the database answers to a write is an input
  `WriteOutcome`: the rows were written (`Applied`), no rows came back
  (`NoData`), or the client raised (`Raised`, with a duplicate-key kind or any
  other). This keeps every error path reachable.
- **Operations.** Each state-changing operation has two parts:
  - a step function on `Tables` (`CreateStep`, `UpdateStep`, `DeleteStep`,
    `SaveStep`);
  - a method that issues the queries against a `Db` in the source's order and
    is proved to end in the state and outcome the step function gives.
- **Properties.** They are lemmas about the step functions. One is the
  invariant `Consistent`, kept by every operation: ids are unique and below the
  counter, set names are trimmed, non-empty and unique per owner, and every card
  belongs to an existing set.
- **Exceptions.** They are values of `Exceptions.Exc`. The text of an HTTP
  exception is `"<status>: <detail>"`, as the framework's `HTTPException`
  prints itself.
- **Text.** `str.strip()` is modelled with Python's whitespace set, and `str(n)`
  by `Text.Decimal`.

## Model

| member | source | states |
|---|---|---|
| `Text.Trim` | app/crud/crud.py:36 | `strip()` returns a string no longer than its input that neither starts nor ends with whitespace |
| `Text.TrimSlice` | app/crud/crud.py:36 | `strip()` returns a contiguous slice of its input, and everything cut off on either side is whitespace |
| `Text.TrimEmptyIffAllSpace` | app/crud/crud.py:37-38 | a name is blank after stripping exactly when every character is whitespace |
| `Text.TrimUnchanged` | app/services/ollama.py:12-13 | a string that neither starts nor ends with whitespace is its own strip |
| `Text.TrimIdempotent` | app/services/flashcard_service.py:57 | stripping twice is stripping once, so the service's strip and the CRUD layer's strip agree |
| `Text.Decimal` | app/services/ollama.py:12-13 | `str(n)` is a non-empty string of decimal digits whose length is 1 exactly for n < 10 and whose last digit is n mod 10 |
| `Text.DecimalValue` | app/services/ollama.py:12-13 | reading `str(n)` back as a decimal number gives n: `int(str(n)) == n` |
| `Text.DecimalNoLeadingZero` | app/services/ollama.py:12-13 | `str(n)` has no leading zero, so with `Text.DecimalValue` it is exactly Python's decimal notation |
| `Text.DecimalInjective` | app/services/ollama.py:12 | different numbers have different decimal notations |
| `Text.StatusCodeDecimals` | app/routers/mcp.py:75 | `str(status_code)` for 400, 401, 404 and 500 is "400", "401", "404" and "500" |
| `Seqs.Filter` | app/crud/crud.py:136-137 | an `.eq(...)` query returns, in table order, exactly the rows that match and nothing else |
| `Seqs.FilterFilter` | app/crud/crud.py:216-220 | narrowing a selection by a stricter condition is selecting by that condition alone |
| `Seqs.FilterPairwise` | app/crud/crud.py:216-220 | deleting rows keeps every pairwise property the remaining rows had, since order is kept |
| `Exceptions.GenerationFailedError` | app/exceptions.py:3-5 | a `GenerationFailedError` is an HTTP exception with status 500 and the given detail |
| `Exceptions.SaveFailedError` | app/exceptions.py:7-9 | a `SaveFailedError` is an HTTP exception with status 500 and the given detail |
| `Store.Db.constructor` | app/models/models.py:14-29 | a fresh database has empty tables and satisfies the invariant |
| `Store.Db.InsertSet` | app/crud/crud.py:55-57 | the set insert appends one row numbered from the counter and returns it, returns no rows, or raises, and leaves the cards alone |
| `Store.Db.InsertCards` | app/crud/crud.py:79-81 | the card insert appends the rows, numbered consecutively, and returns them, or returns no rows, or raises, and leaves the sets alone |
| `Store.Db.DeleteSet` | app/models/models.py:21 | a set delete removes exactly the matching sets and, by the cascade, exactly their cards, and returns the deleted rows |
| `Store.Db.UpdateCard` | app/crud/crud.py:183 | a card update patches every card with that id and returns the updated rows; sets and the counter do not change |
| `Store.ApplyPatch` | app/crud/crud.py:183 | an update writes the given fields verbatim, keeps the others, and never changes a card's id or set |
| `Store.PatchCardsKeepsConsistent` | app/crud/crud.py:183 | patching card fields keeps the tables consistent |
| `Store.FilterSetsKeepsUnique` | app/crud/crud.py:216-220 | deleting sets keeps set ids and per-owner names unique |
| `Store.FilterCardsKeepsUnique` | app/models/models.py:21 | cascading the delete to cards keeps card ids unique |
| `Crud.Prepared` | app/crud/crud.py:66-76 | every row sent belongs to the new set and has a non-empty question and answer, and there are no more rows than candidates |
| `Crud.CardsToInsert` | app/crud/crud.py:67-76 | the loop builds exactly the prepared rows |
| `Crud.PreparedAppend` | app/crud/crud.py:68 | the rows keep the input order of the candidates |
| `Crud.PreparedMembership` | app/crud/crud.py:69-76 | a row is sent exactly when it is the trimmed form of a candidate whose trimmed question and answer are both non-empty |
| `Crud.PreparedTrimmed` | app/crud/crud.py:69-70 | every card is stored trimmed |
| `Crud.PreparedAllKept` | app/crud/crud.py:71-76 | when no candidate is blank, every candidate becomes one row, in order |
| `Crud.PreparedAllBlank` | app/crud/crud.py:66-78 | an empty or all-blank input sends no rows |
| `Crud.SetsNamed` | app/crud/crud.py:40-46 | the duplicate check finds a set exactly when the user already owns a set with that name |
| `Crud.GetFlashcardSet` | app/crud/crud.py:119-122 | the read returns nothing exactly when the user owns no set with that id; otherwise it returns that user's set with exactly the cards of that set |
| `Crud.GetSetStaysOwned` | app/crud/crud.py:119-122 | every card a set read returns belongs to a set of the reader |
| `Crud.GetFlashcardSets` | app/crud/crud.py:136-137 | the list holds exactly the user's sets (empty when there are none) |
| `Crud.GetFlashcardForEditing` | app/crud/crud.py:155-158 | a card is returned only if it exists, has that id and its set belongs to the user; with consistent tables, a card is returned exactly when such a card exists |
| `Crud.CreateFailure` | app/crud/crud.py:97-101 | a duplicate-key error, and only that, becomes the duplicate-name `ValueError`; every other exception becomes an HTTP 500 whose detail is "Błąd: " followed by its text |
| `Crud.CreateStep` | app/crud/crud.py:13-101 | no ensures: the create as a function of the tables and the database's answers (set insert, card insert, compensating delete); its properties are `Crud.CreateChecks`, `Crud.CreateSuccess`, `Crud.CreateFailureFrame`, `Crud.CreateStoreErrors`, `Crud.CreateKeepsConsistent`, `Crud.CreateThenGet` and `Crud.CreateTwice` |
| `Crud.AfterSetInsert` | app/crud/crud.py:62-95 | no ensures: the create once the set row is written, including the compensating delete and its three answers; its properties are stated through `Crud.CreateStep` by the lemmas above |
| `Crud.CreateChecks` | app/crud/crud.py:33-47 | a missing user is a 401, and a blank or already used name is a `ValueError`; none of them changes the tables |
| `Crud.CreateSuccess` | app/crud/crud.py:54-95 | a create succeeds exactly when the checks pass, the set insert writes, and the card insert writes whenever there are rows; the result carries the new id, the trimmed name, the user and exactly the stored cards, and those are the only rows added |
| `Crud.CreateFailureFrame` | app/crud/crud.py:83-101 | a failed create leaves the cards unchanged; it leaves the new set row behind exactly when the set was written and then the card insert raised, or the card insert returned no rows and the compensating delete did not delete the set; otherwise the sets are unchanged |
| `Crud.CreateStoreErrors` | app/crud/crud.py:59-101 | after the checks, a duplicate key from the set insert is the duplicate-name `ValueError`; an empty set insert is a 500 "Nie udało się utworzyć zestawu"; a card insert with rows that returns none is a 500 "Nie udało się dodać fiszek" unless the compensating delete raises, whose exception is then handled instead; a raising card insert is handled by the same handler; no other error kind arises |
| `Crud.CreateFlashcardSet` | app/crud/crud.py:13-101 | the create, run against the database, ends in the state and outcome of the create step and keeps the tables consistent |
| `Crud.InsertSetAndCards` | app/crud/crud.py:54-101 | the `try` block, run against the database, agrees with the create step |
| `Crud.InsertCards` | app/crud/crud.py:78-88 | the card insert and its compensating delete, each answered by the database as the oracle says, run against the database, agree with the create step |
| `Crud.CreateStepTrimmedName` | app/crud/crud.py:36 | creating under a name is creating under its trimmed form |
| `Crud.RollbackRestores` | app/crud/crud.py:86 | a compensating delete that goes through, removing the set just added (which has no cards), restores the set table |
| `Crud.RollbackKeepsCards` | app/crud/crud.py:86 | that compensating delete removes no card |
| `Crud.AppendSetKeepsConsistent` | app/crud/crud.py:49-57 | adding a set with a fresh id, an owner and a trimmed, non-empty, unused name keeps the tables consistent |
| `Crud.AppendCardsKeepsConsistent` | app/crud/crud.py:72-81 | adding cards with fresh ids that point at existing sets keeps the tables consistent |
| `Crud.AfterSetInsertKeepsConsistent` | app/crud/crud.py:62-95 | the writes after the set insert keep the tables consistent, whatever the database answers to the card insert and the compensating delete |
| `Crud.CreateKeepsConsistent` | app/crud/crud.py:33-101 | every create keeps the tables consistent: names trimmed and unique per user, ids unique, cards in existing sets |
| `Crud.GetAppended` | app/crud/crud.py:119-122 | a set just appended reads back with exactly the cards appended after it, and only for its owner |
| `Crud.CreateThenGet` | app/crud/crud.py:89-95 | a created set reads back for its owner with exactly the cards the create returned; any other user gets nothing |
| `Crud.CreateTwice` | app/crud/crud.py:40-47 | a second create under the same name fails with the duplicate-name `ValueError` and changes nothing |
| `Crud.UpdateStep` | app/crud/crud.py:179-186 | no ensures: the update as a function of the tables and the database's answer; its properties are `Crud.UpdateNotFound`, `Crud.UpdateOnlyTarget`, `Crud.UpdateStoreFailures`, `Crud.UpdateIdempotent` and `Crud.UpdateKeepsConsistent` |
| `Crud.UpdateFlashcard` | app/crud/crud.py:179-186 | the update, run against the database, ends in the state and outcome of the update step and keeps the tables consistent |
| `Crud.UpdateNotFound` | app/crud/crud.py:179-181 | updating a card the user cannot edit is a 404 that changes nothing |
| `Crud.UpdateOnlyTarget` | app/crud/crud.py:183-186 | updating an editable card writes the patch to that card alone, in place, and returns the updated row; sets and the counter do not change |
| `Crud.PatchTarget` | app/crud/crud.py:183-186 | an update by the id of a stored card patches that card alone, and the returned rows start with the patched card |
| `Crud.UpdateStoreFailures` | app/crud/crud.py:183-185 | a raising update passes the exception on, and an update that returns no rows is a 500; neither changes anything |
| `Crud.UpdateIdempotent` | app/crud/crud.py:183 | sending the same update twice leaves the tables as sending it once |
| `Crud.UpdateKeepsConsistent` | app/crud/crud.py:179-186 | every update keeps the tables consistent |
| `Crud.DeleteStep` | app/crud/crud.py:206-231 | no ensures: the delete as a function of the tables and the database's answer; its properties are `Crud.DeleteOutcome`, `Crud.DeleteOnlyTarget`, `Crud.DeleteThenList` and `Crud.DeleteKeepsConsistent` |
| `Crud.DeleteFlashcardSet` | app/crud/crud.py:206-231 | the delete, run against the database, ends in the state and outcome of the delete step and keeps the tables consistent |
| `Crud.DeleteOutcome` | app/crud/crud.py:206-231 | the delete is a 404 that changes nothing exactly when the user owns no set with that id; otherwise it fails (a 500 that changes nothing) exactly when the database raised, and else returns the success message |
| `Crud.DeleteOnlyTarget` | app/crud/crud.py:216-220 | a delete that goes through removes exactly the target set and exactly its cards |
| `Crud.DeleteThenList` | app/crud/crud.py:216-220 | after a delete, no other user's list has changed, and the owner's list lacks the deleted set and nothing else |
| `Crud.DeleteKeepsConsistent` | app/crud/crud.py:206-231 | every delete keeps the tables consistent; no card is left pointing at the deleted set |
| `Ollama.GenerateFlashcardsFromText` | app/services/ollama.py:3-15 | the generator returns exactly max(n, 0) pairs, the i-th being "Question i+1" / "Answer i+1", whatever the text |
| `Ollama.PlaceholderShape` | app/services/ollama.py:9-15 | the generated list has max(n, 0) entries, numbered in ascending order |
| `Ollama.PlaceholderDraftTrimmed` | app/services/ollama.py:12-13 | no generated question or answer is blank, and stripping changes none of them |
| `Ollama.PlaceholderQuestionsDistinct` | app/services/ollama.py:12 | all generated questions are pairwise distinct |
| `FlashcardService.GenerationResult` | app/services/flashcard_service.py:29-35 | the generator's list is passed on exactly when it is non-empty; an empty list and every exception become a `GenerationFailedError` with the "Failed to generate flashcards: " prefix |
| `FlashcardService.GenerateFlashcards` | app/services/flashcard_service.py:15-35 | the service, calling the placeholder, gives the result that the generation mapping gives for the placeholder's list |
| `FlashcardService.GenerateWithPlaceholder` | app/services/flashcard_service.py:30-35 | a positive count yields exactly that many pairs; any other count is the twice-wrapped "no content" 500 |
| `FlashcardService.EmptyGenerationDetail` | app/services/flashcard_service.py:31-35 | an empty list ends in a `GenerationFailedError` whose detail is "Failed to generate flashcards: 500: Ollama did not return any generated content." |
| `FlashcardService.PlaceholderAllPrepared` | app/crud/crud.py:69-76 | saving the placeholder's output stores every pair unchanged, in order |
| `FlashcardService.SaveStep` | app/services/flashcard_service.py:38-69 | no ensures: the save as a function of the tables and the database's and validator's answers; its properties are `FlashcardService.SaveRejectsBeforeCreate`, `FlashcardService.SaveOutcome`, `FlashcardService.SaveWithoutUser` and `FlashcardService.SaveKeepsConsistent` |
| `FlashcardService.SaveFlashcardSet` | app/services/flashcard_service.py:38-69 | the save, run against the database, ends in the state and outcome of the save step and keeps the tables consistent |
| `FlashcardService.SaveRejectsBeforeCreate` | app/services/flashcard_service.py:57-63 | a blank or already used name is a `SaveFailedError` raised before the CRUD create: nothing changes and the database's answers play no part |
| `FlashcardService.SaveOutcome` | app/services/flashcard_service.py:65-69 | otherwise the tables are those the CRUD create left; a save succeeds exactly when the create does and the result builds, and then returns the created set; every failure is a `SaveFailedError` |
| `FlashcardService.SaveWithoutUser` | app/services/flashcard_service.py:65-69 | a save without a user comes back as a 500 `SaveFailedError` carrying the CRUD layer's 401 text |
| `FlashcardService.SaveKeepsConsistent` | app/services/flashcard_service.py:38-69 | every save keeps the tables consistent |
| `FlashcardService.UpdateFlashcard` | app/services/flashcard_service.py:87 | the service's update has exactly the CRUD update's outcome and effect, and keeps the tables consistent |
| `FlashcardService.DeleteFlashcardSet` | app/services/flashcard_service.py:106 | the service's delete has the CRUD delete's effect and errors, returns nothing on success, and keeps the tables consistent |
| `Mcp.GetToolDefinitions` | app/routers/mcp.py:32-42 | there is exactly one definition, named "generateFlashcardsAI" |
| `Mcp.DefinitionsMatchTools` | app/routers/mcp.py:28-42 | the defined tools are exactly the tools in the table |
| `Mcp.GenerateFlashcardsAiFunction` | app/routers/mcp.py:12-26 | the generator's list becomes the content; an HTTP exception passes through unchanged; any other exception becomes a 500 with the "Error generating flashcards: " prefix |
| `Mcp.ErrorResponse` | app/routers/mcp.py:74-77 | an HTTP exception becomes an error with its detail and its status code as text; any other exception becomes an error with code "500" and the "An unexpected error occurred: " prefix |
| `Mcp.ExecuteTool` | app/routers/mcp.py:44-77 | no ensures: `execute_tool` as a function of the tool name, the validation result and the generator; its properties are `Mcp.ExecuteUnknownTool`, `Mcp.ExecuteSuccess`, `Mcp.ExecuteErrors` and `Mcp.ExecuteWithPlaceholder` |
| `Mcp.ExecuteUnknownTool` | app/routers/mcp.py:52-56 | an unknown tool name raises a 400 "Tool '<name>' not found." before anything runs |
| `Mcp.ExecuteSuccess` | app/routers/mcp.py:58-73 | for the known tool with valid parameters, the list from the generator called with the request's text and count is the content, and there is no error |
| `Mcp.ExecuteErrors` | app/routers/mcp.py:74-77 | a generator's HTTP exception gives its detail and code; another exception arrives as code "500" with the tool's prefix; a validation error is an unexpected error with code "500" |
| `Mcp.ExecuteWithPlaceholder` | app/routers/mcp.py:20-22 | with the placeholder generator the tool always answers with max(count, 0) pairs of content |
| `Dependencies.GetSupabaseClient` | app/dependencies.py:5-8 | a client is built exactly when both the URL and the key are set and non-empty; otherwise "Supabase configuration missing" is raised |
| `Dependencies.TokenFromCookie` | app/dependencies.py:17-22 | a missing or empty cookie gives no token; otherwise one leading "Bearer " is removed, if present, and nothing else changes |
| `Dependencies.BearerRoundTrip` | app/routers/auth.py:41 | the cookie "Bearer " + t set at sign-in delivers exactly t to the auth provider |
| `Dependencies.GetCurrentUser` | app/dependencies.py:10-31 | the user is returned unchanged exactly when there is a token and the provider answers with a user; every failure is the one 401 credentials exception |
| `Dependencies.CookieAuthentication` | app/dependencies.py:11-31 | after sign-in, the provider's user for the token is returned; no user or a provider exception gives the 401; a missing or empty cookie gives the 401 with its `WWW-Authenticate: Bearer` header |

## Where the code and its documentation differ

The model follows the code in each case below.

- **A raising card insert leaves the set behind.** The compensating delete
  at app/crud/crud.py:86 runs only when the card insert returns no rows. When
  the card insert raises, the handler at app/crud/crud.py:97-101 reports a 500
  and the new set stays stored, with no cards. The set also stays when the
  compensating delete itself deletes nothing (its answer is not checked) or
  raises (the handler then reports that exception). `Crud.CreateFailureFrame`
  states these cases.
- **The delete chain does not parse as written.** At app/crud/crud.py:216-220,
  lines 217-219 have no line continuation, so the module does not parse. The
  model uses the evident chain: delete where the id and the user match.
- **The documented cascade is a model declaration.** The delete's docstring
  (app/crud/crud.py:189) promises that the set's cards go too. That cascade is
  declared on the ORM model at app/models/models.py:21. `Store.Db.DeleteSet`
  states it as a postcondition.
- **A delete that returns no rows still succeeds.** The check at
  app/crud/crud.py:222-223 does nothing, so the success message is returned and
  the tables do not change.
- **The schema and the CRUD layer use different field names.**
  `FlashcardSetCreate` and `FlashcardSet` (app/schemas/schemas.py:17-29)
  declare `title` and `owner_id`. The service and the CRUD layer read and build
  `name` and `user_id`. `FlashcardSetCreate` also has no `flashcards` field,
  although app/crud/crud.py:66 reads `set_data.flashcards`; only `FlashcardSet`
  declares one. The model gives `SetInput` the `name` and `flashcards`
  fields the code reads. It makes building the returned `FlashcardSet` (app/services/flashcard_service.py:67)
  an input `BuildOutcome`; with the schema as shown, it would always be
  `Invalid`.
- **The request and response schemas do not exist.** The schemas that
  app/routers/mcp.py:4 imports are not in app/schemas/schemas.py. The model
  uses the shapes the endpoint builds.
- **The unknown-tool test expects a body the code does not send.**
  tests/test_mcp.py:76-79 expects an `error` body for an unknown tool. The code
  raises an HTTP 400 outside the `try` (app/routers/mcp.py:52-56), whose body
  carries `detail`.
- **The "no content" error is wrapped twice.** The `GenerationFailedError`
  raised for an empty list (app/services/flashcard_service.py:32) is caught
  again by the handler at line 34. Its detail is therefore "Failed to generate
  flashcards: 500: Ollama did not return any generated content."
- **The service turns the CRUD 401 into a 500.** The service catches every
  exception of the CRUD create, so a missing user arrives as a
  `SaveFailedError` with status 500.
- **The tool endpoint does not fail on an empty list.** The service fails when
  the generator returns nothing, while the tool endpoint returns empty content
  (`Mcp.ExecuteWithPlaceholder`).

## Left out

- The query builder, the network and the auth provider's SDK are not modelled. Queries are functions over `Tables`. Each database answer to a write is an input (`WriteOutcome`), and so is the auth provider's answer (`AuthOutcome`).
- Reads always answer, so a read that raises is not modelled. This covers `Crud.SetsNamed` (the duplicate checks at app/crud/crud.py:40-44 and app/services/flashcard_service.py:61), `Crud.GetFlashcardSet`, `Crud.GetFlashcardSets`, `Crud.GetFlashcardForEditing` (app/crud/crud.py:155) and the existence select in `Crud.DeleteStep` (app/crud/crud.py:206-210). In the source these reads run outside any handler, so a client exception there escapes unwrapped. A save could then fail with something other than a `SaveFailedError`, and a delete with something other than the 404 or the "Nie udało się usunąć" 500. The claims of `FlashcardService.SaveRejectsBeforeCreate`, `FlashcardService.SaveOutcome` and `Crud.DeleteOutcome` that every failure takes one of these forms therefore hold only for reads that answer.
- `created_at` timestamps are omitted.
- Ids are natural numbers from a counter. Ids passed as strings that the database would coerce are not modelled.
- Store errors are abstracted to "duplicate key" or "other". The source's substring test on the message text is not modelled. Inside the create's `try`, only a database error can carry that text.
- Store.Db.UpdateCard: the update body is limited to the `question` and `answer` fields. Other keys a caller could put in `flashcard_data` are not modelled.
- Concurrency is not modelled, for instance two creates racing between the duplicate check and the insert. The duplicate-key outcome of the set insert stands for the database rejecting the second one.
- Pydantic validation is an input to the model (`Validation`, `BuildOutcome`):
  - the parameters of the tool request;
  - the returned `FlashcardSet`.
- A `count` that is not an integer is not modelled.
- Dependencies.GetCurrentUser: the request is reduced to its cookie value. The user object is an `AuthUser` record. The Supabase client that the dependency receives is represented only by the provider's answer for each token.
- Dependencies.GetSupabaseClient: `create_client` is a foreign call, so the client is the record of its URL and key.
- Mcp.GetToolDefinitions: the input and output JSON schemas, generated by Pydantic, are not modelled.
- The "not supported for execution" branch of app/routers/mcp.py:69-71 is unreachable, since the tool table has one entry. The `match` on the tool has no such case.
- `async`/`await` is read as plain sequential calls.
- The HTML routes of app/routers/auth.py are left out; only its cookie format is used. Also left out: app/main.py, the empty routes of app/routers/flashcards.py, and the environment loading of app/config.py.
