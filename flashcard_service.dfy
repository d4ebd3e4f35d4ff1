/** The service layer of app/services/flashcard_service.py: it calls the
    generator and the CRUD layer and turns every failure into one of the two
    application exceptions, `GenerationFailedError` and `SaveFailedError`,
    both HTTP 500. */
module FlashcardService {
  import opened Wrappers
  import opened Text
  import opened Exceptions
  import opened Schemas
  import opened Store
  import opened Crud
  import opened Ollama

  const NoContentDetail := "Ollama did not return any generated content."
  const EmptyNameDetail := "Set name cannot be empty."

  function GenerationFailedDetail(e: Exc): string
  {
    "Failed to generate flashcards: " + Str(e)
  }

  function SetExistsDetail(name: string): string
  {
    "A set with the name '" + name + "' already exists."
  }

  function SaveFailedDetail(e: Exc): string
  {
    "Failed to save flashcard set: " + Str(e)
  }

  /** `generate_flashcards` once the generator has answered `g`: a non-empty
      list is passed on unchanged; an empty list raises `GenerationFailedError`,
      which its own handler catches and wraps a second time; any exception of
      the generator is wrapped once. */
  function GenerationResult(g: GenOutcome): (r: Result<seq<Draft>, Exc>)
    ensures r.Success? <==> g.Returned? && g.drafts != []
    ensures r.Success? ==> r.value == g.drafts
    ensures r.Failure? ==> r.error.IsHttp() && r.error.cls == GenerationFailed && r.error.status == 500
    ensures g.Returned? && g.drafts == [] ==>
      r.error.detail == GenerationFailedDetail(GenerationFailedError(NoContentDetail))
    ensures g.GeneratorRaised? ==> r.error.detail == GenerationFailedDetail(g.error)
  {
    match g
    case GeneratorRaised(e) => Failure(GenerationFailedError(GenerationFailedDetail(e)))
    case Returned(drafts) =>
      if drafts == [] then
        Failure(GenerationFailedError(GenerationFailedDetail(GenerationFailedError(NoContentDetail))))
      else Success(drafts)
  }

  /** `generate_flashcards` with the placeholder generator. */
  method GenerateFlashcards(text: string, count: int) returns (r: Result<seq<Draft>, Exc>)
    ensures r == GenerationResult(Returned(PlaceholderDrafts(count)))
  {
    var generated := GenerateFlashcardsFromText(text, count);
    if generated == [] {
      return Failure(GenerationFailedError(GenerationFailedDetail(GenerationFailedError(NoContentDetail))));
    }
    r := Success(generated);
  }

  /** With the placeholder generator, a positive count yields exactly that
      many pairs and any other count the doubly wrapped "no content" error. */
  lemma GenerateWithPlaceholder(count: int)
    ensures var r := GenerationResult(Returned(PlaceholderDrafts(count)));
      && (count >= 1 ==> r.Success? && |r.value| == count)
      && (count <= 0 ==> r == Failure(GenerationFailedError(
            "Failed to generate flashcards: " + "500" + ": " + NoContentDetail)))
  {
    PlaceholderShape(count);
    if count <= 0 {
      assert PlaceholderDrafts(count) == [];
      EmptyGenerationDetail();
    }
  }

  /** The text of the error an empty generation ends in: the inner
      `GenerationFailedError` rendered as "500: ..." inside the outer one. */
  lemma EmptyGenerationDetail()
    ensures GenerationResult(Returned([])) == Failure(GenerationFailedError(
      "Failed to generate flashcards: " + "500" + ": " + NoContentDetail))
  {
    StatusCodeDecimals();
    var str := Str(GenerationFailedError(NoContentDetail));
    assert str == "500" + ": " + NoContentDetail;
    assert GenerationFailedDetail(GenerationFailedError(NoContentDetail)) == "Failed to generate flashcards: " + str;
    assert "Failed to generate flashcards: " + str == "Failed to generate flashcards: " + "500" + ": " + NoContentDetail;
  }

  /** Every generated pair survives the blank filter of set creation
      unchanged: saving the placeholder's output stores all of it. */
  lemma PlaceholderAllPrepared(n: int, setId: nat)
    ensures var drafts := PlaceholderDrafts(n);
      && |Prepared(drafts, setId)| == |drafts|
      && forall i :: 0 <= i < |drafts| ==>
           Prepared(drafts, setId)[i] == NewCard(drafts[i].question, drafts[i].answer, setId)
  {
    var drafts := PlaceholderDrafts(n);
    PlaceholderShape(n);
    forall fc | fc in drafts ensures Kept(fc) {
      var i :| 0 <= i < |drafts| && drafts[i] == fc;
      PlaceholderDraftTrimmed(i);
    }
    PreparedAllKept(drafts, setId);
    forall i | 0 <= i < |drafts|
      ensures Prepared(drafts, setId)[i] == NewCard(drafts[i].question, drafts[i].answer, setId)
    {
      PlaceholderDraftTrimmed(i);
    }
  }

  /** Whether building the returned `FlashcardSet` from the dictionary the
      CRUD layer returned succeeds, or the validation error it raises. */
  datatype BuildOutcome = Built | Invalid(message: string)

  /** The tables and the outcome after `save_flashcard_set(data, userId)`. */
  function SaveStep(t: Tables, data: SetInput, userId: string, o: CreateOracle, build: BuildOutcome)
    : (out: (Tables, Result<CreatedSet, Exc>))
  {
    var setName := Trim(data.name);
    if setName == "" then (t, Failure(SaveFailedError(EmptyNameDetail)))
    else if SetsNamed(t, userId, setName) != [] then (t, Failure(SaveFailedError(SetExistsDetail(setName))))
    else
      var (t1, created) := CreateStep(t, data, userId, o);
      match created
      case Failure(e) => (t1, Failure(SaveFailedError(SaveFailedDetail(e))))
      case Success(c) =>
        match build
        case Invalid(message) => (t1, Failure(SaveFailedError(SaveFailedDetail(OtherException(message)))))
        case Built => (t1, Success(c))
  }

  /** `save_flashcard_set`, against `db`. */
  method SaveFlashcardSet(db: Db, data: SetInput, userId: string, o: CreateOracle, build: BuildOutcome)
    returns (r: Result<CreatedSet, Exc>)
    requires db.Valid()
    modifies db
    ensures db.Valid()
    ensures (db.Snapshot(), r) == SaveStep(old(db.Snapshot()), data, userId, o, build)
  {
    var setName := Trim(data.name);
    if setName == "" {
      return Failure(SaveFailedError(EmptyNameDetail));
    }
    var existingSet := SetsNamed(db.Snapshot(), userId, setName);
    if existingSet != [] {
      return Failure(SaveFailedError(SetExistsDetail(setName)));
    }
    var created := CreateFlashcardSet(db, data, userId, o);
    if created.Failure? {
      return Failure(SaveFailedError(SaveFailedDetail(created.error)));
    }
    match build
    case Invalid(message) =>
      r := Failure(SaveFailedError(SaveFailedDetail(OtherException(message))));
    case Built =>
      r := Success(created.value);
  }

  /** A blank name, or a name the user already has, is a `SaveFailedError`
      raised before the CRUD layer is called: the tables do not change and
      the database's answers play no part. */
  lemma SaveRejectsBeforeCreate(t: Tables, data: SetInput, userId: string,
                                o1: CreateOracle, b1: BuildOutcome, o2: CreateOracle, b2: BuildOutcome)
    requires Trim(data.name) == "" || exists s :: s in t.sets && s.userId == userId && s.name == Trim(data.name)
    ensures var out := SaveStep(t, data, userId, o1, b1);
      && out == SaveStep(t, data, userId, o2, b2)
      && out.0 == t
      && out.1 == Failure(SaveFailedError(
           if Trim(data.name) == "" then EmptyNameDetail else SetExistsDetail(Trim(data.name))))
  {
  }

  /** Every failure of a save is a `SaveFailedError`; a success returns
      exactly the set the CRUD layer created, and the tables are always
      those the CRUD layer left. */
  lemma SaveOutcome(t: Tables, data: SetInput, userId: string, o: CreateOracle, build: BuildOutcome)
    requires Trim(data.name) != "" && SetsNamed(t, userId, Trim(data.name)) == []
    ensures var out := SaveStep(t, data, userId, o, build);
      var created := CreateStep(t, data, userId, o);
      && out.0 == created.0
      && (out.1.Success? <==> created.1.Success? && build.Built?)
      && (out.1.Success? ==> out.1 == created.1)
      && (out.1.Failure? ==> out.1.error.IsHttp() && out.1.error.cls == SaveFailed && out.1.error.status == 500)
      && (created.1.Failure? ==> out.1 == Failure(SaveFailedError(SaveFailedDetail(created.1.error))))
  {
  }

  /** A save without a user reaches the CRUD layer, whose 401 comes back as
      a `SaveFailedError` with status 500. */
  lemma SaveWithoutUser(t: Tables, data: SetInput, o: CreateOracle, build: BuildOutcome)
    requires Trim(data.name) != "" && SetsNamed(t, "", Trim(data.name)) == []
    ensures SaveStep(t, data, "", o, build) ==
      (t, Failure(SaveFailedError("Failed to save flashcard set: " + "401" + ": " + MissingUserIdDetail)))
  {
    StatusCodeDecimals();
    var str := Str(Http(HTTP_401_UNAUTHORIZED, MissingUserIdDetail));
    assert str == "401" + ": " + MissingUserIdDetail;
    assert CreateStep(t, data, "", o) == (t, Failure(Http(HTTP_401_UNAUTHORIZED, MissingUserIdDetail)));
    assert "Failed to save flashcard set: " + str == "Failed to save flashcard set: " + "401" + ": " + MissingUserIdDetail;
  }

  /** `save_flashcard_set` keeps the tables consistent. */
  lemma SaveKeepsConsistent(t: Tables, data: SetInput, userId: string, o: CreateOracle, build: BuildOutcome)
    requires Consistent(t)
    ensures Consistent(SaveStep(t, data, userId, o, build).0)
  {
    CreateKeepsConsistent(t, data, userId, o);
  }

  /** The service's `update_flashcard`: the CRUD update, unchanged. */
  method UpdateFlashcard(db: Db, cardId: nat, userId: string, patch: CardPatch, outcome: WriteOutcome)
    returns (r: Result<CardRow, Exc>)
    requires db.Valid()
    modifies db
    ensures db.Valid()
    ensures (db.Snapshot(), r) == UpdateStep(old(db.Snapshot()), cardId, userId, patch, outcome)
  {
    r := Crud.UpdateFlashcard(db, cardId, userId, patch, outcome);
  }

  /** The service's `delete_flashcard_set`: the CRUD delete, whose errors it
      passes on and whose success message it drops. */
  method DeleteFlashcardSet(db: Db, setId: nat, userId: string, outcome: WriteOutcome)
    returns (r: Result<(), Exc>)
    requires db.Valid()
    modifies db
    ensures db.Valid()
    ensures var (t1, crud) := DeleteStep(old(db.Snapshot()), setId, userId, outcome);
      && db.Snapshot() == t1
      && (crud.Success? ==> r == Success(()))
      && (crud.Failure? ==> r == Failure(crud.error))
  {
    var deleted := Crud.DeleteFlashcardSet(db, setId, userId, outcome);
    if deleted.Failure? {
      return Failure(deleted.error);
    }
    r := Success(());
  }
}
