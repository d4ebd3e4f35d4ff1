/** The CRUD layer of app/crud/crud.py: creating a set together with its
    cards, the owner-scoped reads, updating one card and deleting a set.

    Each state-changing operation has a step function on `Tables` that says
    what the new tables and the outcome are, and a method that performs the
    same operation against a `Db` in the order the source issues its queries,
    proved to agree with the step function. The properties of the operations
    are stated on the step functions. */
module Crud {
  import opened Wrappers
  import opened Seqs
  import opened Text
  import opened Exceptions
  import opened Schemas
  import opened Store

  /** The dictionary `create_flashcard_set` returns (without `created_at`). */
  datatype CreatedSet = CreatedSet(id: nat, name: string, userId: string, flashcards: seq<CardRow>)

  /** A set row with its cards, as `select('*, flashcards(*)')` returns it. */
  datatype SetWithCards = SetWithCards(row: SetRow, flashcards: seq<CardRow>)

  /** What the database answers to the writes of `create_flashcard_set`:
      the set insert, the card insert, and the compensating delete of the new
      set that follows a card insert returning no rows. */
  datatype CreateOracle = CreateOracle(setInsert: WriteOutcome, cardInsert: WriteOutcome, rollback: WriteOutcome)

  const MissingUserIdDetail := "Brak user_id"
  const EmptySetNameMessage := "Nazwa zestawu nie może być pusta."
  const SetNotCreatedDetail := "Nie udało się utworzyć zestawu"
  const CardsNotAddedDetail := "Nie udało się dodać fiszek"
  const CardNotFoundDetail := "Flashcard not found"
  const CardNotUpdatedDetail := "Failed to update flashcard"
  const SetNotFoundDetail := "Flashcard set not found"
  const SetDeletedMessage := "Flashcard set deleted successfully"

  function DuplicateSetNameMessage(name: string): string
  {
    "Zestaw o nazwie '" + name + "' już istnieje."
  }

  // ---------------------------------------------------------------------
  // Preparing the cards of a new set
  // ---------------------------------------------------------------------

  /** A candidate card survives when its trimmed question and trimmed answer are both non-empty. */
  predicate Kept(fc: Draft)
  {
    Trim(fc.question) != "" && Trim(fc.answer) != ""
  }

  /** The row one candidate card contributes to the insert: nothing, or its trimmed fields. */
  function PrepareCard(fc: Draft, setId: nat): seq<NewCard>
  {
    var question := Trim(fc.question);
    var answer := Trim(fc.answer);
    if question != "" && answer != "" then [NewCard(question, answer, setId)] else []
  }

  /** The rows `create_flashcard_set` sends for `fcs`, in input order. */
  function Prepared(fcs: seq<Draft>, setId: nat): (r: seq<NewCard>)
    ensures |r| <= |fcs|
    ensures forall c :: c in r ==> c.setId == setId && c.question != "" && c.answer != ""
  {
    if fcs == [] then [] else Prepared(fcs[..|fcs| - 1], setId) + PrepareCard(fcs[|fcs| - 1], setId)
  }

  /** The loop of app/crud/crud.py:67-76. */
  method CardsToInsert(fcs: seq<Draft>, setId: nat) returns (rows: seq<NewCard>)
    ensures rows == Prepared(fcs, setId)
  {
    rows := [];
    for i := 0 to |fcs|
      invariant rows == Prepared(fcs[..i], setId)
    {
      assert fcs[..i + 1][..i] == fcs[..i];
      var question := Trim(fcs[i].question);
      var answer := Trim(fcs[i].answer);
      if question != "" && answer != "" {
        rows := rows + [NewCard(question, answer, setId)];
      }
    }
    assert fcs[..|fcs|] == fcs;
  }

  /** Preparing a concatenation prepares each part: the input order is kept. */
  lemma {:induction false} PreparedAppend(a: seq<Draft>, b: seq<Draft>, setId: nat)
    ensures Prepared(a + b, setId) == Prepared(a, setId) + Prepared(b, setId)
  {
    if b == [] {
      assert a + b == a;
    } else {
      var init, last := b[..|b| - 1], b[|b| - 1];
      var pLast := PrepareCard(last, setId);
      assert Prepared(a + b, setId) == Prepared(a + init, setId) + pLast by {
        var ab := a + b;
        assert ab[..|ab| - 1] == a + init && ab[|ab| - 1] == last;
      }
      PreparedAppend(a, init, setId);
      var pa, pInit := Prepared(a, setId), Prepared(init, setId);
      assert (pa + pInit) + pLast == pa + (pInit + pLast);
    }
  }

  /** A row is inserted exactly when it is the trimmed form of a surviving candidate. */
  lemma {:induction false} PreparedMembership(fcs: seq<Draft>, setId: nat, c: NewCard)
    ensures c in Prepared(fcs, setId) <==>
      exists fc :: fc in fcs && Kept(fc) && c == NewCard(Trim(fc.question), Trim(fc.answer), setId)
  {
    if fcs != [] {
      var init := fcs[..|fcs| - 1];
      PreparedMembership(init, setId, c);
      assert fcs == init + [fcs[|fcs| - 1]];
    }
  }

  /** Every inserted row is stored trimmed. */
  lemma PreparedTrimmed(fcs: seq<Draft>, setId: nat, c: NewCard)
    requires c in Prepared(fcs, setId)
    ensures Trimmed(c.question) && Trimmed(c.answer)
  {
    PreparedMembership(fcs, setId, c);
  }

  /** Candidates that all survive are all inserted, one row each, in order. */
  lemma {:induction false} PreparedAllKept(fcs: seq<Draft>, setId: nat)
    requires forall fc :: fc in fcs ==> Kept(fc)
    ensures |Prepared(fcs, setId)| == |fcs|
    ensures forall i :: 0 <= i < |fcs| ==>
      Prepared(fcs, setId)[i] == NewCard(Trim(fcs[i].question), Trim(fcs[i].answer), setId)
  {
    if fcs != [] {
      var init := fcs[..|fcs| - 1];
      PreparedAllKept(init, setId);
      var last := fcs[|fcs| - 1];
      var p, pInit := Prepared(fcs, setId), Prepared(init, setId);
      assert Kept(last);
      assert p == pInit + [NewCard(Trim(last.question), Trim(last.answer), setId)];
      forall i | 0 <= i < |fcs|
        ensures p[i] == NewCard(Trim(fcs[i].question), Trim(fcs[i].answer), setId)
      {
        if i < |init| {
          assert fcs[i] == init[i] && p[i] == pInit[i];
        }
      }
    }
  }

  /** An empty or all-blank input yields no rows. */
  lemma {:induction false} PreparedAllBlank(fcs: seq<Draft>, setId: nat)
    requires forall fc :: fc in fcs ==> !Kept(fc)
    ensures Prepared(fcs, setId) == []
  {
    if fcs != [] {
      var init, last := fcs[..|fcs| - 1], fcs[|fcs| - 1];
      assert forall fc :: fc in init ==> fc in fcs;
      PreparedAllBlank(init, setId);
      assert !Kept(last) && PrepareCard(last, setId) == [];
      assert Prepared(fcs, setId) == Prepared(init, setId) + PrepareCard(last, setId);
    }
  }

  // ---------------------------------------------------------------------
  // Reads
  // ---------------------------------------------------------------------

  function OwnedNamed(userId: string, name: string): SetRow -> bool
  {
    (s: SetRow) => s.userId == userId && s.name == name
  }

  function OwnedBy(userId: string): SetRow -> bool
  {
    (s: SetRow) => s.userId == userId
  }

  function InSet(setId: nat): CardRow -> bool
  {
    (c: CardRow) => c.setId == setId
  }

  /** The user's sets with exactly this name (app/crud/crud.py:40-44). */
  function SetsNamed(t: Tables, userId: string, name: string): (r: seq<SetRow>)
    ensures r == [] <==> forall s :: s in t.sets ==> !(s.userId == userId && s.name == name)
  {
    var r := Filter(t.sets, OwnedNamed(userId, name));
    assert r != [] ==> r[0] in r;
    r
  }

  /** `get_flashcard_set`: the set with this id if this user owns it, with its cards in table order. */
  function GetFlashcardSet(t: Tables, setId: nat, userId: string): (r: Option<SetWithCards>)
    ensures r.None? <==> forall s :: s in t.sets ==> !(s.id == setId && s.userId == userId)
    ensures r.Some? ==>
      && r.value.row in t.sets && r.value.row.id == setId && r.value.row.userId == userId
      && forall c :: c in r.value.flashcards <==> c in t.cards && c.setId == setId
  {
    var found := Filter(t.sets, SetMatch(setId, Some(userId)));
    if found == [] then None
    else
      assert found[0] in found;
      Some(SetWithCards(found[0], Filter(t.cards, InSet(setId))))
  }

  /** `get_flashcard_sets`: exactly the user's sets, in table order; `[]` when there are none. */
  function GetFlashcardSets(t: Tables, userId: string): (r: seq<SetRow>)
    ensures forall s :: s in r <==> s in t.sets && s.userId == userId
  {
    Filter(t.sets, OwnedBy(userId))
  }

  /** A set read back holds only cards of that set, so only the reader's cards. */
  lemma GetSetStaysOwned(t: Tables, setId: nat, userId: string)
    requires GetFlashcardSet(t, setId, userId).Some?
    ensures forall c :: c in GetFlashcardSet(t, setId, userId).value.flashcards ==> OwnsCard(t, c, userId)
  {
    var row := GetFlashcardSet(t, setId, userId).value.row;
    assert row in t.sets;
  }

  /** The user owns card `c` when the set it belongs to is theirs. */
  ghost predicate OwnsCard(t: Tables, c: CardRow, userId: string)
  {
    exists s :: s in t.sets && s.id == c.setId && s.userId == userId
  }

  /** The cards with this id that the inner join with `flashcard_sets` keeps:
      those whose set exists. */
  function JoinedCard(cardId: nat, setIds: set<nat>): CardRow -> bool
  {
    (c: CardRow) => c.id == cardId && c.setId in setIds
  }

  /** `get_flashcard_for_editing`: the card with this id, joined to its set, if
      that set belongs to the user; `None` otherwise. */
  function GetFlashcardForEditing(t: Tables, cardId: nat, userId: string): (r: Option<CardRow>)
    ensures r.Some? ==> r.value in t.cards && r.value.id == cardId && OwnsCard(t, r.value, userId)
    ensures Consistent(t) ==>
      (r.Some? <==> exists c :: c in t.cards && c.id == cardId && OwnsCard(t, c, userId))
  {
    var found := Filter(t.cards, JoinedCard(cardId, SetIds(t.sets)));
    if found == [] then None
    else
      var card := found[0];
      assert card in found;
      var owner :| owner in t.sets && owner.id == card.setId;
      var owners := Filter(t.sets, SetMatch(card.setId, None));
      assert owner in owners;
      assert owners[0] in owners;
      if owners[0].userId != userId then
        assert Consistent(t) ==> forall c :: c in t.cards && c.id == cardId ==> !OwnsCard(t, c, userId) by {
          if Consistent(t) {
            forall c | c in t.cards && c.id == cardId ensures !OwnsCard(t, c, userId) {
              CardIdUnique(t, c, card);
              forall s | s in t.sets && s.id == card.setId ensures s.userId != userId {
                SetIdUnique(t, s, owners[0]);
              }
            }
          }
        }
        None
      else
        Some(card)
  }

  lemma SetIdUnique(t: Tables, a: SetRow, b: SetRow)
    requires Consistent(t) && a in t.sets && b in t.sets && a.id == b.id
    ensures a == b
  {
    var i :| 0 <= i < |t.sets| && t.sets[i] == a;
    var j :| 0 <= j < |t.sets| && t.sets[j] == b;
    assert !(i < j) && !(j < i);
  }

  lemma CardIdUnique(t: Tables, a: CardRow, b: CardRow)
    requires Consistent(t) && a in t.cards && b in t.cards && a.id == b.id
    ensures a == b
  {
    var i :| 0 <= i < |t.cards| && t.cards[i] == a;
    var j :| 0 <= j < |t.cards| && t.cards[j] == b;
    assert !(i < j) && !(j < i);
  }

  // ---------------------------------------------------------------------
  // create_flashcard_set
  // ---------------------------------------------------------------------

  /** The handler of the `try` block of app/crud/crud.py:97-101: a unique-key
      violation becomes the duplicate-name `ValueError`, anything else an
      HTTP 500 whose detail is "Błąd: " followed by the exception's text. */
  function CreateFailure(name: string, e: Exc): (r: Exc)
    ensures r.ValueError? <==> e.StoreException? && e.error.DuplicateKey?
    ensures r.ValueError? ==> r.message == DuplicateSetNameMessage(name)
    ensures r.IsHttp() ==> r.status == 500 && r.detail == "Błąd: " + Str(e)
    ensures !r.ValueError? ==> r == Http(HTTP_500_INTERNAL_SERVER_ERROR, "Błąd: " + Str(e))
  {
    if e.StoreException? && e.error.DuplicateKey? then ValueError(DuplicateSetNameMessage(name))
    else Http(HTTP_500_INTERNAL_SERVER_ERROR, "Błąd: " + Str(e))
  }

  /** The calls of `create_flashcard_set` that pass its three checks. */
  predicate CreateAdmissible(t: Tables, data: SetInput, userId: string)
  {
    userId != "" && Trim(data.name) != "" && SetsNamed(t, userId, Trim(data.name)) == []
  }

  /** The tables and the outcome after `create_flashcard_set(data, userId)`
      on tables `t`, the database answering the two inserts as `o` says. */
  function CreateStep(t: Tables, data: SetInput, userId: string, o: CreateOracle): (out: (Tables, Result<CreatedSet, Exc>))
  {
    var name := Trim(data.name);
    if userId == "" then (t, Failure(Http(HTTP_401_UNAUTHORIZED, MissingUserIdDetail)))
    else if name == "" then (t, Failure(ValueError(EmptySetNameMessage)))
    else if SetsNamed(t, userId, name) != [] then (t, Failure(ValueError(DuplicateSetNameMessage(name))))
    else match o.setInsert
      case Raised(e) => (t, Failure(CreateFailure(name, StoreException(e))))
      case NoData => (t, Failure(CreateFailure(name, Http(HTTP_500_INTERNAL_SERVER_ERROR, SetNotCreatedDetail))))
      case Applied =>
        AfterSetInsert(t, SetRow(t.nextId, name, userId), Prepared(data.flashcards, t.nextId), o.cardInsert, o.rollback)
  }

  /** The rest of a create once the set row `newSet` has been written to the
      tables `t`: the rows `rows` are inserted, the database answering as
      `cardInsert` says. If it returns none, the set row is deleted again,
      the database answering that delete as `rollback` says: a delete that
      returns nothing leaves the set row behind, and one that raises is
      handled like every other exception of the `try` block. */
  function AfterSetInsert(t: Tables, newSet: SetRow, rows: seq<NewCard>, cardInsert: WriteOutcome, rollback: WriteOutcome)
    : (out: (Tables, Result<CreatedSet, Exc>))
  {
    var withSet := Tables(t.sets + [newSet], t.cards, t.nextId + 1);
    if rows == [] then (withSet, Success(CreatedSet(newSet.id, newSet.name, newSet.userId, [])))
    else match cardInsert
      case Raised(e) => (withSet, Failure(CreateFailure(newSet.name, StoreException(e))))
      case NoData =>
        (match rollback
         case Raised(e) => (withSet, Failure(CreateFailure(newSet.name, StoreException(e))))
         case NoData =>
           (withSet, Failure(CreateFailure(newSet.name, Http(HTTP_500_INTERNAL_SERVER_ERROR, CardsNotAddedDetail))))
         case Applied =>
           (Tables(t.sets, t.cards, withSet.nextId),
            Failure(CreateFailure(newSet.name, Http(HTTP_500_INTERNAL_SERVER_ERROR, CardsNotAddedDetail)))))
      case Applied =>
        var inserted := Numbered(rows, withSet.nextId);
        (Tables(withSet.sets, t.cards + inserted, withSet.nextId + |rows|),
         Success(CreatedSet(newSet.id, newSet.name, newSet.userId, inserted)))
  }

  /** The three checks that come before any write: a missing user is a 401,
      a blank name and a name the user already has are `ValueError`s, and
      none of them touches the tables. */
  lemma CreateChecks(t: Tables, data: SetInput, userId: string, o: CreateOracle)
    ensures var out := CreateStep(t, data, userId, o);
      && (userId == "" ==> out == (t, Failure(Http(HTTP_401_UNAUTHORIZED, MissingUserIdDetail))))
      && (userId != "" && Trim(data.name) == "" ==> out == (t, Failure(ValueError(EmptySetNameMessage))))
      && (userId != "" && Trim(data.name) != "" && !CreateAdmissible(t, data, userId) ==>
            out == (t, Failure(ValueError(DuplicateSetNameMessage(Trim(data.name))))))
  {
  }

  /** A create succeeds exactly when it passes the checks, the set insert
      writes its row, and the card insert, if there is anything to insert,
      writes too. It then appends one set row, with the trimmed name and the
      caller as owner, and the surviving cards, trimmed and in input order,
      all pointing at the new set; and it returns exactly what it stored. */
  lemma CreateSuccess(t: Tables, data: SetInput, userId: string, o: CreateOracle)
    ensures var out := CreateStep(t, data, userId, o);
      && (out.1.Success? <==>
            && CreateAdmissible(t, data, userId) && o.setInsert.Applied?
            && (Prepared(data.flashcards, t.nextId) == [] || o.cardInsert.Applied?))
      && (out.1.Success? ==>
            var created := out.1.value;
            && created.id == t.nextId
            && created.name == Trim(data.name) && created.userId == userId
            && Unnumbered(created.flashcards) == Prepared(data.flashcards, created.id)
            && out.0.sets == t.sets + [SetRow(created.id, created.name, userId)]
            && out.0.cards == t.cards + created.flashcards)
  {
    var out := CreateStep(t, data, userId, o);
    if out.1.Success? && out.1.value.flashcards != [] {
      UnnumberedNumbered(Prepared(data.flashcards, t.nextId), t.nextId + 1);
    }
  }

  /** The answers under which a failed create leaves its new set row behind:
      the set row was written, and then the card insert raised, or it
      returned no rows and the compensating delete did not delete the set. */
  predicate LeavesSetBehind(o: CreateOracle)
  {
    o.setInsert.Applied? && (o.cardInsert.Raised? || (o.cardInsert.NoData? && !o.rollback.Applied?))
  }

  /** A failed create leaves the card table as it was, and the set table too
      unless the new set row was left behind. When the card insert returned
      no rows and the compensating delete went through, nothing is left
      behind. */
  lemma CreateFailureFrame(t: Tables, data: SetInput, userId: string, o: CreateOracle)
    ensures var out := CreateStep(t, data, userId, o);
      && (out.1.Failure? ==> out.0.cards == t.cards)
      && (out.1.Failure? && !LeavesSetBehind(o) ==> out.0.sets == t.sets)
      && (out.1.Failure? && out.0.sets != t.sets ==>
            && LeavesSetBehind(o)
            && out.0.sets == t.sets + [SetRow(t.nextId, Trim(data.name), userId)])
      && (out.1.Failure? && LeavesSetBehind(o) && CreateAdmissible(t, data, userId) ==>
            out.0.sets == t.sets + [SetRow(t.nextId, Trim(data.name), userId)])
  {
  }

  /** Every error of a create that passed its checks: a duplicate key from
      the database becomes the duplicate-name `ValueError`; everything else,
      including the 500s raised inside the `try`, becomes a 500 whose detail
      starts with "Błąd: ". */
  lemma CreateStoreErrors(t: Tables, data: SetInput, userId: string, o: CreateOracle)
    requires CreateAdmissible(t, data, userId)
    ensures var out := CreateStep(t, data, userId, o);
      && (o.setInsert.Raised? && o.setInsert.error.DuplicateKey? ==>
            out.1 == Failure(ValueError(DuplicateSetNameMessage(Trim(data.name)))))
      && (o.setInsert.NoData? ==>
            out.1 == Failure(Http(500, "Błąd: " + Str(Http(500, SetNotCreatedDetail)))))
      && (o.setInsert.Applied? && Prepared(data.flashcards, t.nextId) != [] && o.cardInsert.NoData? ==>
            && (!o.rollback.Raised? ==> out.1 == Failure(Http(500, "Błąd: " + Str(Http(500, CardsNotAddedDetail)))))
            && (o.rollback.Raised? ==> out.1 == Failure(CreateFailure(Trim(data.name), StoreException(o.rollback.error)))))
      && (o.setInsert.Applied? && Prepared(data.flashcards, t.nextId) != [] && o.cardInsert.Raised? ==>
            out.1 == Failure(CreateFailure(Trim(data.name), StoreException(o.cardInsert.error))))
      && (out.1.Failure? ==> out.1.error.ValueError? || (out.1.error.IsHttp() && out.1.error.status == 500))
  {
  }

  /** `create_flashcard_set`, issuing its queries against `db` in the source's order. */
  method CreateFlashcardSet(db: Db, data: SetInput, userId: string, o: CreateOracle) returns (r: Result<CreatedSet, Exc>)
    requires db.Valid()
    modifies db
    ensures db.Valid()
    ensures (db.Snapshot(), r) == CreateStep(old(db.Snapshot()), data, userId, o)
  {
    ghost var t := db.Snapshot();
    var name := Trim(data.name);
    if userId == "" {
      r := Failure(Http(HTTP_401_UNAUTHORIZED, MissingUserIdDetail));
    } else if name == "" {
      r := Failure(ValueError(EmptySetNameMessage));
    } else if SetsNamed(db.Snapshot(), userId, name) != [] {
      r := Failure(ValueError(DuplicateSetNameMessage(name)));
    } else {
      r := InsertSetAndCards(db, name, userId, data.flashcards, o);
      CreateStepTrimmedName(t, data, userId, o);
    }
    CreateKeepsConsistent(t, data, userId, o);
  }

  /** The `try` block of `create_flashcard_set` (app/crud/crud.py:54-101),
      entered once the checks have passed. */
  method InsertSetAndCards(db: Db, name: string, userId: string, flashcards: seq<Draft>, o: CreateOracle)
    returns (r: Result<CreatedSet, Exc>)
    requires db.Valid() && userId != "" && name != "" && Trimmed(name)
    requires SetsNamed(db.Snapshot(), userId, name) == []
    modifies db
    ensures (db.Snapshot(), r) == CreateStep(old(db.Snapshot()), SetInput(name, flashcards), userId, o)
  {
    ghost var t := db.Snapshot();
    TrimUnchanged(name);
    var setResponse := db.InsertSet(name, userId, o.setInsert);
    if setResponse.Failure? {
      return Failure(CreateFailure(name, StoreException(setResponse.error)));
    }
    if setResponse.value == [] {
      return Failure(CreateFailure(name, Http(HTTP_500_INTERNAL_SERVER_ERROR, SetNotCreatedDetail)));
    }
    var newSet := setResponse.value[0];
    var flashcardsToInsert := [];
    if flashcards != [] {
      flashcardsToInsert := CardsToInsert(flashcards, newSet.id);
    }
    r := InsertCards(db, t, newSet, flashcardsToInsert, o.cardInsert, o.rollback);
  }

  /** The card insert of `create_flashcard_set` (app/crud/crud.py:78-95),
      once the set row `newSet` has been added to the tables `t`: insert
      `rows`, or delete the set again when the insert returns no rows. */
  method InsertCards(db: Db, ghost t: Tables, newSet: SetRow, rows: seq<NewCard>, cardInsert: WriteOutcome,
                     rollback: WriteOutcome)
    returns (r: Result<CreatedSet, Exc>)
    requires Consistent(t) && newSet.id == t.nextId
    requires db.Snapshot() == Tables(t.sets + [newSet], t.cards, t.nextId + 1)
    modifies db
    ensures (db.Snapshot(), r) == AfterSetInsert(t, newSet, rows, cardInsert, rollback)
  {
    if rows == [] {
      return Success(CreatedSet(newSet.id, newSet.name, newSet.userId, []));
    }
    var flashcardsResponse := db.InsertCards(rows, cardInsert);
    if flashcardsResponse.Failure? {
      return Failure(CreateFailure(newSet.name, StoreException(flashcardsResponse.error)));
    }
    if flashcardsResponse.value == [] {
      var deleteResponse := db.DeleteSet(newSet.id, None, rollback);
      if deleteResponse.Failure? {
        return Failure(CreateFailure(newSet.name, StoreException(deleteResponse.error)));
      }
      if rollback.Applied? {
        RollbackRestores(t, newSet);
      }
      return Failure(CreateFailure(newSet.name, Http(HTTP_500_INTERNAL_SERVER_ERROR, CardsNotAddedDetail)));
    }
    r := Success(CreatedSet(newSet.id, newSet.name, newSet.userId, flashcardsResponse.value));
  }

  /** Creating under a name is creating under its trimmed form. */
  lemma CreateStepTrimmedName(t: Tables, data: SetInput, userId: string, o: CreateOracle)
    ensures CreateStep(t, data, userId, o) == CreateStep(t, SetInput(Trim(data.name), data.flashcards), userId, o)
  {
    TrimIdempotent(data.name);
  }

  /** Deleting the set just appended, which has no cards yet, restores both tables. */
  lemma RollbackRestores(t: Tables, newSet: SetRow)
    requires Consistent(t) && newSet.id == t.nextId
    ensures Filter(t.sets + [newSet], SetMiss(newSet.id, None)) == t.sets
    ensures Filter(t.cards, CardSurvives(SetIds(Filter(t.sets + [newSet], SetMatch(newSet.id, None))))) == t.cards
  {
    var hit, miss := SetMatch(newSet.id, None), SetMiss(newSet.id, None);
    assert hit(newSet) && !miss(newSet);
    assert [newSet][1..] == [];
    assert Filter([newSet], miss) == [];
    FilterAppend(t.sets, [newSet], miss);
    FilterAll(t.sets, miss);
    RollbackKeepsCards(t, newSet);
  }

  lemma RollbackKeepsCards(t: Tables, newSet: SetRow)
    requires Consistent(t) && newSet.id == t.nextId
    ensures Filter(t.cards, CardSurvives(SetIds(Filter(t.sets + [newSet], SetMatch(newSet.id, None))))) == t.cards
  {
    var hit := SetMatch(newSet.id, None);
    assert hit(newSet);
    assert [newSet][1..] == [];
    assert Filter([newSet], hit) == [newSet];
    FilterAppend(t.sets, [newSet], hit);
    FilterNone(t.sets, hit);
    assert Filter(t.sets + [newSet], hit) == [newSet];
    assert SetIds([newSet]) == {newSet.id};
    forall c | c in t.cards ensures CardSurvives({newSet.id})(c) {
      var s :| s in t.sets && s.id == c.setId;
    }
    FilterAll(t.cards, CardSurvives({newSet.id}));
  }

  /** Appending a set row numbered from the counter, with an owner, a
      trimmed non-empty name and no namesake among the owner's sets, keeps the
      tables consistent. */
  lemma AppendSetKeepsConsistent(t: Tables, newSet: SetRow)
    requires Consistent(t) && newSet.id == t.nextId
    requires newSet.userId != "" && newSet.name != "" && Trimmed(newSet.name)
    requires forall s :: s in t.sets ==> !(s.userId == newSet.userId && s.name == newSet.name)
    ensures Consistent(Tables(t.sets + [newSet], t.cards, t.nextId + 1))
  {
    var sets := t.sets + [newSet];
    forall i, j | 0 <= i < j < |sets|
      ensures sets[i].id != sets[j].id
      ensures sets[i].userId != sets[j].userId || sets[i].name != sets[j].name
    {
      if j == |t.sets| { assert t.sets[i] in t.sets; }
    }
    assert SetIds(t.sets) <= SetIds(sets);
  }

  /** Appending cards numbered from the counter, each pointing at an
      existing set, keeps the tables consistent. */
  lemma AppendCardsKeepsConsistent(t: Tables, rows: seq<NewCard>)
    requires Consistent(t)
    requires forall c :: c in rows ==> c.setId in SetIds(t.sets)
    ensures Consistent(Tables(t.sets, t.cards + Numbered(rows, t.nextId), t.nextId + |rows|))
  {
    var added := Numbered(rows, t.nextId);
    var cards := t.cards + added;
    forall i, j | 0 <= i < j < |cards| ensures cards[i].id != cards[j].id {
      if i < |t.cards| <= j { assert t.cards[i] in t.cards; }
    }
    forall c | c in added ensures c.id < t.nextId + |rows| && c.setId in SetIds(t.sets) {
      var k :| 0 <= k < |added| && added[k] == c;
      assert rows[k] in rows;
    }
  }

  /** `create_flashcard_set` keeps the tables consistent: stored names stay
      trimmed and unique per owner, ids stay unique, cards keep their set. */
  lemma CreateKeepsConsistent(t: Tables, data: SetInput, userId: string, o: CreateOracle)
    requires Consistent(t)
    ensures Consistent(CreateStep(t, data, userId, o).0)
  {
    if CreateAdmissible(t, data, userId) && o.setInsert.Applied? {
      var newSet := SetRow(t.nextId, Trim(data.name), userId);
      AfterSetInsertKeepsConsistent(t, newSet, Prepared(data.flashcards, t.nextId), o.cardInsert, o.rollback);
    }
  }

  /** The writes after the set insert keep the tables consistent, whatever
      the database answers to the card insert and to the compensating delete. */
  lemma AfterSetInsertKeepsConsistent(t: Tables, newSet: SetRow, rows: seq<NewCard>,
                                      cardInsert: WriteOutcome, rollback: WriteOutcome)
    requires Consistent(t) && newSet.id == t.nextId
    requires newSet.userId != "" && newSet.name != "" && Trimmed(newSet.name)
    requires forall s :: s in t.sets ==> !(s.userId == newSet.userId && s.name == newSet.name)
    requires forall c :: c in rows ==> c.setId == newSet.id
    ensures Consistent(AfterSetInsert(t, newSet, rows, cardInsert, rollback).0)
  {
    AppendSetKeepsConsistent(t, newSet);
    var withSet := Tables(t.sets + [newSet], t.cards, t.nextId + 1);
    if rows != [] && cardInsert.Applied? {
      assert SetIds(withSet.sets) == SetIds(t.sets) + {t.nextId};
      AppendCardsKeepsConsistent(withSet, rows);
    } else if rows != [] && cardInsert.NoData? && rollback.Applied? {
      assert AfterSetInsert(t, newSet, rows, cardInsert, rollback).0 == Tables(t.sets, t.cards, t.nextId + 1);
    } else {
      assert AfterSetInsert(t, newSet, rows, cardInsert, rollback).0 == withSet;
    }
  }

  /** A set row appended with a fresh id, followed by cards that all point
      at it, reads back as exactly that row and those cards. */
  lemma GetAppended(t: Tables, row: SetRow, added: seq<CardRow>, nextId: nat, other: string)
    requires Consistent(t) && row.id == t.nextId
    requires forall c :: c in added ==> c.setId == row.id
    ensures var t1 := Tables(t.sets + [row], t.cards + added, nextId);
      && GetFlashcardSet(t1, row.id, row.userId) == Some(SetWithCards(row, added))
      && (other != row.userId ==> GetFlashcardSet(t1, row.id, other).None?)
  {
    var t1 := Tables(t.sets + [row], t.cards + added, nextId);
    var hit := SetMatch(row.id, Some(row.userId));
    FilterAppend(t.sets, [row], hit);
    FilterNone(t.sets, hit);
    assert [row][1..] == [];
    assert Filter([row], hit) == [row];
    assert Filter(t1.sets, hit) == [row];
    var inSet := InSet(row.id);
    forall c | c in t.cards ensures !inSet(c) {
      var s :| s in t.sets && s.id == c.setId;
    }
    FilterAppend(t.cards, added, inSet);
    FilterNone(t.cards, inSet);
    FilterAll(added, inSet);
    assert Filter(t1.cards, inSet) == added;
  }

  /** Reading back a set just created returns it with exactly the cards
      the create stored, in order; to any other user it does not exist. */
  lemma CreateThenGet(t: Tables, data: SetInput, userId: string, o: CreateOracle, other: string)
    requires Consistent(t)
    requires CreateStep(t, data, userId, o).1.Success?
    ensures var (t1, r) := CreateStep(t, data, userId, o);
      && GetFlashcardSet(t1, r.value.id, userId) ==
           Some(SetWithCards(SetRow(r.value.id, r.value.name, userId), r.value.flashcards))
      && (other != userId ==> GetFlashcardSet(t1, r.value.id, other).None?)
  {
    CreateSuccess(t, data, userId, o);
    var (t1, r) := CreateStep(t, data, userId, o);
    var created := r.value;
    var rows := Prepared(data.flashcards, t.nextId);
    forall c | c in created.flashcards ensures c.setId == created.id {
      var k :| 0 <= k < |created.flashcards| && created.flashcards[k] == c;
      assert Unnumbered(created.flashcards)[k] == rows[k] && rows[k] in rows;
    }
    GetAppended(t, SetRow(created.id, created.name, userId), created.flashcards, t1.nextId, other);
  }

  /** Creating a set under a name the user already used, however the
      database would answer, is the duplicate-name `ValueError` and changes
      nothing. */
  lemma CreateTwice(t: Tables, data: SetInput, userId: string, o1: CreateOracle, o2: CreateOracle)
    requires CreateStep(t, data, userId, o1).1.Success?
    ensures var t1 := CreateStep(t, data, userId, o1).0;
      CreateStep(t1, data, userId, o2) == (t1, Failure(ValueError(DuplicateSetNameMessage(Trim(data.name)))))
  {
    CreateSuccess(t, data, userId, o1);
    var t1 := CreateStep(t, data, userId, o1).0;
    assert t1.sets[|t1.sets| - 1] in t1.sets;
  }

  // ---------------------------------------------------------------------
  // update_flashcard
  // ---------------------------------------------------------------------

  /** The tables and the outcome after `update_flashcard(cardId, userId, patch)`,
      the database answering the update as `outcome` says. */
  function UpdateStep(t: Tables, cardId: nat, userId: string, patch: CardPatch, outcome: WriteOutcome)
    : (out: (Tables, Result<CardRow, Exc>))
  {
    if GetFlashcardForEditing(t, cardId, userId).None? then (t, Failure(Http(HTTP_404_NOT_FOUND, CardNotFoundDetail)))
    else match outcome
      case Raised(e) => (t, Failure(StoreException(e)))
      case NoData => (t, Failure(Http(HTTP_500_INTERNAL_SERVER_ERROR, CardNotUpdatedDetail)))
      case Applied =>
        var cards := PatchCards(t.cards, cardId, patch);
        var updated := Filter(cards, CardWithId(cardId));
        if updated == [] then (t.(cards := cards), Failure(Http(HTTP_500_INTERNAL_SERVER_ERROR, CardNotUpdatedDetail)))
        else (t.(cards := cards), Success(updated[0]))
  }

  /** `update_flashcard`, issuing its queries against `db` in the source's order. */
  method UpdateFlashcard(db: Db, cardId: nat, userId: string, patch: CardPatch, outcome: WriteOutcome)
    returns (r: Result<CardRow, Exc>)
    requires db.Valid()
    modifies db
    ensures db.Valid()
    ensures (db.Snapshot(), r) == UpdateStep(old(db.Snapshot()), cardId, userId, patch, outcome)
  {
    UpdateKeepsConsistent(db.Snapshot(), cardId, userId, patch, outcome);
    var cardToEdit := GetFlashcardForEditing(db.Snapshot(), cardId, userId);
    if cardToEdit.None? {
      return Failure(Http(HTTP_404_NOT_FOUND, CardNotFoundDetail));
    }
    var response := db.UpdateCard(cardId, patch, outcome);
    if response.Failure? {
      return Failure(StoreException(response.error));
    }
    if response.value == [] {
      return Failure(Http(HTTP_500_INTERNAL_SERVER_ERROR, CardNotUpdatedDetail));
    }
    r := Success(response.value[0]);
  }

  /** An update of a card the user cannot edit (missing, or in another user's
      set) is a 404 that changes nothing, whatever the database would answer. */
  lemma UpdateNotFound(t: Tables, cardId: nat, userId: string, patch: CardPatch, outcome: WriteOutcome)
    requires Consistent(t)
    requires forall c :: c in t.cards && c.id == cardId ==> !OwnsCard(t, c, userId)
    ensures UpdateStep(t, cardId, userId, patch, outcome) == (t, Failure(Http(HTTP_404_NOT_FOUND, CardNotFoundDetail)))
  {
  }

  /** An update of a card the user owns writes the given fields, verbatim, to
      that card alone, keeps its place in the table, and returns the updated
      row; the set table and the id counter do not change. */
  lemma UpdateOnlyTarget(t: Tables, cardId: nat, userId: string, patch: CardPatch, c: CardRow)
    requires Consistent(t) && c in t.cards && c.id == cardId && OwnsCard(t, c, userId)
    ensures var out := UpdateStep(t, cardId, userId, patch, Applied);
      && out.1 == Success(ApplyPatch(c, patch))
      && out.0.sets == t.sets && out.0.nextId == t.nextId
      && |out.0.cards| == |t.cards|
      && forall i :: 0 <= i < |t.cards| ==>
           out.0.cards[i] == if t.cards[i] == c then ApplyPatch(c, patch) else t.cards[i]
  {
    PatchTarget(t, patch, c);
  }

  /** Patching by the id of a stored card changes that card alone, and the
      rows the update returns start with the patched card. */
  lemma PatchTarget(t: Tables, patch: CardPatch, c: CardRow)
    requires Consistent(t) && c in t.cards
    ensures var cards := PatchCards(t.cards, c.id, patch);
      && (forall i :: 0 <= i < |t.cards| ==> cards[i] == if t.cards[i] == c then ApplyPatch(c, patch) else t.cards[i])
      && Filter(cards, CardWithId(c.id)) != []
      && Filter(cards, CardWithId(c.id))[0] == ApplyPatch(c, patch)
  {
    var cards := PatchCards(t.cards, c.id, patch);
    forall i | 0 <= i < |t.cards| ensures (t.cards[i].id == c.id) == (t.cards[i] == c) {
      if t.cards[i].id == c.id { CardIdUnique(t, t.cards[i], c); }
    }
    var k :| 0 <= k < |t.cards| && t.cards[k] == c;
    assert cards[k] == ApplyPatch(c, patch);
    var updated := Filter(cards, CardWithId(c.id));
    assert cards[k] in updated;
    assert updated[0] in updated;
  }

  /** Every other outcome of the database on an editable card: an exception
      passes through, no rows is a 500, and neither changes anything. */
  lemma UpdateStoreFailures(t: Tables, cardId: nat, userId: string, patch: CardPatch, outcome: WriteOutcome)
    requires GetFlashcardForEditing(t, cardId, userId).Some? && !outcome.Applied?
    ensures var out := UpdateStep(t, cardId, userId, patch, outcome);
      && out.0 == t
      && (outcome.Raised? ==> out.1 == Failure(StoreException(outcome.error)))
      && (outcome.NoData? ==> out.1 == Failure(Http(HTTP_500_INTERNAL_SERVER_ERROR, CardNotUpdatedDetail)))
  {
  }

  /** Sending the same update twice leaves the tables as sending it once. */
  lemma UpdateIdempotent(t: Tables, cardId: nat, userId: string, patch: CardPatch, outcome: WriteOutcome)
    requires Consistent(t)
    ensures var t1 := UpdateStep(t, cardId, userId, patch, outcome).0;
      UpdateStep(t1, cardId, userId, patch, outcome).0 == t1
  {
    var t1 := UpdateStep(t, cardId, userId, patch, outcome).0;
    if t1 != t {
      var cards := PatchCards(t1.cards, cardId, patch);
      assert cards == t1.cards by {
        forall i | 0 <= i < |cards| ensures cards[i] == t1.cards[i] {
          if t.cards[i].id == cardId { assert t1.cards[i] == ApplyPatch(t.cards[i], patch); }
        }
      }
    }
  }

  /** `update_flashcard` keeps the tables consistent. */
  lemma UpdateKeepsConsistent(t: Tables, cardId: nat, userId: string, patch: CardPatch, outcome: WriteOutcome)
    requires Consistent(t)
    ensures Consistent(UpdateStep(t, cardId, userId, patch, outcome).0)
  {
    PatchCardsKeepsConsistent(t, cardId, patch);
  }

  // ---------------------------------------------------------------------
  // delete_flashcard_set
  // ---------------------------------------------------------------------

  function DeleteFailedDetail(e: Exc): string
  {
    "Nie udało się usunąć zestawu fiszek: " + Str(e)
  }

  /** The tables and the outcome after `delete_flashcard_set(setId, userId)`,
      the database answering the delete as `outcome` says. */
  function DeleteStep(t: Tables, setId: nat, userId: string, outcome: WriteOutcome): (out: (Tables, Result<string, Exc>))
  {
    var owned := Filter(t.sets, SetMatch(setId, Some(userId)));
    if owned == [] then (t, Failure(Http(HTTP_404_NOT_FOUND, SetNotFoundDetail)))
    else match outcome
      case Raised(e) => (t, Failure(Http(HTTP_500_INTERNAL_SERVER_ERROR, DeleteFailedDetail(StoreException(e)))))
      case NoData => (t, Success(SetDeletedMessage))
      case Applied =>
        (Tables(Filter(t.sets, SetMiss(setId, Some(userId))), Filter(t.cards, CardSurvives(SetIds(owned))), t.nextId),
         Success(SetDeletedMessage))
  }

  /** `delete_flashcard_set`, issuing its queries against `db` in the source's order. */
  method DeleteFlashcardSet(db: Db, setId: nat, userId: string, outcome: WriteOutcome) returns (r: Result<string, Exc>)
    requires db.Valid()
    modifies db
    ensures db.Valid()
    ensures (db.Snapshot(), r) == DeleteStep(old(db.Snapshot()), setId, userId, outcome)
  {
    DeleteKeepsConsistent(db.Snapshot(), setId, userId, outcome);
    var response := Filter(db.sets, SetMatch(setId, Some(userId)));
    if response == [] {
      return Failure(Http(HTTP_404_NOT_FOUND, SetNotFoundDetail));
    }
    var deleteResponse := db.DeleteSet(setId, Some(userId), outcome);
    if deleteResponse.Failure? {
      return Failure(Http(HTTP_500_INTERNAL_SERVER_ERROR, DeleteFailedDetail(StoreException(deleteResponse.error))));
    }
    r := Success(SetDeletedMessage);
  }

  /** A set that does not exist or that another user owns is a 404 that
      changes nothing; otherwise the call reports success unless the database
      raised, and then it is a 500 that changes nothing. */
  lemma DeleteOutcome(t: Tables, setId: nat, userId: string, outcome: WriteOutcome)
    ensures var out := DeleteStep(t, setId, userId, outcome);
      && ((forall s :: s in t.sets ==> !(s.id == setId && s.userId == userId)) <==>
            out == (t, Failure(Http(HTTP_404_NOT_FOUND, SetNotFoundDetail))))
      && (GetFlashcardSet(t, setId, userId).Some? ==>
            && (outcome.Raised? <==> out.1.Failure?)
            && (outcome.Raised? ==> out == (t, Failure(Http(HTTP_500_INTERNAL_SERVER_ERROR, DeleteFailedDetail(StoreException(outcome.error))))))
            && (out.1.Success? ==> out.1.value == SetDeletedMessage))
  {
    var owned := Filter(t.sets, SetMatch(setId, Some(userId)));
    if owned != [] {
      assert owned[0] in owned;
    }
  }

  /** A delete that goes through removes exactly the target set and, by the
      cascade of the set's `flashcards` relationship, exactly its cards. */
  lemma DeleteOnlyTarget(t: Tables, setId: nat, userId: string)
    requires Consistent(t) && GetFlashcardSet(t, setId, userId).Some?
    ensures var t1 := DeleteStep(t, setId, userId, Applied).0;
      && (forall s :: s in t1.sets <==> s in t.sets && s.id != setId)
      && (forall c :: c in t1.cards <==> c in t.cards && c.setId != setId)
      && t1.nextId == t.nextId
  {
    var owned := Filter(t.sets, SetMatch(setId, Some(userId)));
    assert owned[0] in owned;
    forall s | s in t.sets && s.id == setId ensures s.userId == userId {
      SetIdUnique(t, s, owned[0]);
    }
    assert SetIds(owned) == {setId};
  }

  /** After a delete, no other user's list of sets has changed, and the
      owner's list is the old one without the deleted set. */
  lemma DeleteThenList(t: Tables, setId: nat, userId: string, outcome: WriteOutcome, other: string)
    ensures var t1 := DeleteStep(t, setId, userId, outcome).0;
      && (other != userId ==> GetFlashcardSets(t1, other) == GetFlashcardSets(t, other))
      && (!outcome.Applied? ==> GetFlashcardSets(t1, userId) == GetFlashcardSets(t, userId))
      && (outcome.Applied? ==>
            forall s :: s in GetFlashcardSets(t1, userId) <==> s in GetFlashcardSets(t, userId) && s.id != setId)
  {
    var t1 := DeleteStep(t, setId, userId, outcome).0;
    if t1 != t && other != userId {
      FilterFilter(t.sets, SetMiss(setId, Some(userId)), OwnedBy(other));
    }
  }

  /** `delete_flashcard_set` keeps the tables consistent: the cascade leaves
      no card pointing at the deleted set. */
  lemma DeleteKeepsConsistent(t: Tables, setId: nat, userId: string, outcome: WriteOutcome)
    requires Consistent(t)
    ensures Consistent(DeleteStep(t, setId, userId, outcome).0)
  {
    var t1 := DeleteStep(t, setId, userId, outcome).0;
    if t1 != t {
      var owned := Filter(t.sets, SetMatch(setId, Some(userId)));
      DeleteOnlyTarget(t, setId, userId);
      FilterSetsKeepsUnique(t.sets, SetMiss(setId, Some(userId)));
      FilterCardsKeepsUnique(t.cards, CardSurvives(SetIds(owned)));
      forall c | c in t1.cards ensures c.setId in SetIds(t1.sets) {
        var s :| s in t.sets && s.id == c.setId;
      }
    }
  }
}
