/** The two tables the application keeps in its hosted database,
    `flashcard_sets` and `flashcards`, and the operations the CRUD layer
    issues against them. Rows are kept in table order; the database assigns
    ids from a counter. Whether a write takes effect is decided by the
    caller-supplied `WriteOutcome`, which stands for what the database
    answers: the written rows, no rows, or an exception. */
module Store {
  import opened Wrappers
  import opened Seqs
  import opened Text
  import opened Exceptions

  /** A row of `flashcard_sets` (app/models/models.py:15-21). */
  datatype SetRow = SetRow(id: nat, name: string, userId: string)

  /** A row of `flashcards` (app/models/models.py:23-29). */
  datatype CardRow = CardRow(id: nat, question: string, answer: string, setId: nat)

  /** A `flashcards` row as the application sends it, before the database gives it an id. */
  datatype NewCard = NewCard(question: string, answer: string, setId: nat)

  /** The fields a card update may carry; an absent field is left as it is. */
  datatype CardPatch = CardPatch(question: Option<string>, answer: Option<string>)

  datatype Tables = Tables(sets: seq<SetRow>, cards: seq<CardRow>, nextId: nat)

  /** What the database answers to one write. */
  datatype WriteOutcome = Applied | NoData | Raised(error: StoreError)

  function SetIds(sets: seq<SetRow>): set<nat>
  {
    set s | s in sets :: s.id
  }

  predicate SetIdsUnique(sets: seq<SetRow>)
  {
    forall i, j :: 0 <= i < j < |sets| ==> sets[i].id != sets[j].id
  }

  predicate CardIdsUnique(cards: seq<CardRow>)
  {
    forall i, j :: 0 <= i < j < |cards| ==> cards[i].id != cards[j].id
  }

  /** No user owns two sets with the same name. */
  predicate NamesUniquePerUser(sets: seq<SetRow>)
  {
    forall i, j :: 0 <= i < j < |sets| ==> sets[i].userId != sets[j].userId || sets[i].name != sets[j].name
  }

  /** The invariant the CRUD layer keeps: ids are unique and below the
      counter, every set has an owner and a trimmed non-empty name, names are
      unique per owner, and every card belongs to a set that exists. */
  predicate Consistent(t: Tables)
  {
    && SetIdsUnique(t.sets)
    && CardIdsUnique(t.cards)
    && (forall s :: s in t.sets ==> s.id < t.nextId && s.userId != "" && s.name != "" && Trimmed(s.name))
    && (forall c :: c in t.cards ==> c.id < t.nextId && c.setId in SetIds(t.sets))
    && NamesUniquePerUser(t.sets)
  }

  /** Removing set rows keeps ids and per-owner names unique. */
  lemma FilterSetsKeepsUnique(sets: seq<SetRow>, p: SetRow -> bool)
    requires SetIdsUnique(sets) && NamesUniquePerUser(sets)
    ensures SetIdsUnique(Filter(sets, p)) && NamesUniquePerUser(Filter(sets, p))
  {
    var sameId := (a: SetRow, b: SetRow) => a.id != b.id;
    var sameName := (a: SetRow, b: SetRow) => a.userId != b.userId || a.name != b.name;
    assert Pairwise(sets, sameId) && Pairwise(sets, sameName);
    FilterPairwise(sets, p, sameId);
    FilterPairwise(sets, p, sameName);
    var r := Filter(sets, p);
    assert forall i, j :: 0 <= i < j < |r| ==> sameId(r[i], r[j]) && sameName(r[i], r[j]);
  }

  /** Removing card rows keeps card ids unique. */
  lemma FilterCardsKeepsUnique(cards: seq<CardRow>, p: CardRow -> bool)
    requires CardIdsUnique(cards)
    ensures CardIdsUnique(Filter(cards, p))
  {
    var sameId := (a: CardRow, b: CardRow) => a.id != b.id;
    assert Pairwise(cards, sameId);
    FilterPairwise(cards, p, sameId);
    var r := Filter(cards, p);
    assert forall i, j :: 0 <= i < j < |r| ==> sameId(r[i], r[j]);
  }

  /** The rows `rows` once the database has numbered them from `first`. */
  function Numbered(rows: seq<NewCard>, first: nat): seq<CardRow>
  {
    seq(|rows|, i requires 0 <= i < |rows| => CardRow(first + i, rows[i].question, rows[i].answer, rows[i].setId))
  }

  /** A stored card without its id: what the application sent. */
  function Unnumbered(cards: seq<CardRow>): seq<NewCard>
  {
    seq(|cards|, i requires 0 <= i < |cards| => NewCard(cards[i].question, cards[i].answer, cards[i].setId))
  }

  lemma UnnumberedNumbered(rows: seq<NewCard>, first: nat)
    ensures Unnumbered(Numbered(rows, first)) == rows
  {
  }

  function ApplyPatch(c: CardRow, p: CardPatch): (r: CardRow)
    ensures r.id == c.id && r.setId == c.setId
    ensures r.question == (if p.question.Some? then p.question.value else c.question)
    ensures r.answer == (if p.answer.Some? then p.answer.value else c.answer)
  {
    var c1 := if p.question.Some? then c.(question := p.question.value) else c;
    if p.answer.Some? then c1.(answer := p.answer.value) else c1
  }

  /** `cards` with the patch applied to every row whose id is `id`. */
  function PatchCards(cards: seq<CardRow>, id: nat, p: CardPatch): seq<CardRow>
  {
    seq(|cards|, i requires 0 <= i < |cards| => if cards[i].id == id then ApplyPatch(cards[i], p) else cards[i])
  }

  /** Patching cards changes neither their number, their ids nor their sets,
      so it keeps the tables consistent. */
  lemma PatchCardsKeepsConsistent(t: Tables, id: nat, p: CardPatch)
    requires Consistent(t)
    ensures Consistent(t.(cards := PatchCards(t.cards, id, p)))
  {
    var cards := PatchCards(t.cards, id, p);
    assert forall i :: 0 <= i < |cards| ==> cards[i].id == t.cards[i].id && cards[i].setId == t.cards[i].setId;
    forall c | c in cards ensures c.id < t.nextId && c.setId in SetIds(t.sets) {
      var k :| 0 <= k < |cards| && cards[k] == c;
      assert t.cards[k] in t.cards;
    }
  }

  /** The `.eq('id', id)[.eq('user_id', owner)]` filter on sets; `owner` is
      `None` where the source filters by id only. */
  function SetMatch(id: nat, owner: Option<string>): SetRow -> bool
  {
    (s: SetRow) => s.id == id && (owner.None? || s.userId == owner.value)
  }

  function SetMiss(id: nat, owner: Option<string>): SetRow -> bool
  {
    (s: SetRow) => !SetMatch(id, owner)(s)
  }

  /** The cards that do not belong to any of the sets `gone`. */
  function CardSurvives(gone: set<nat>): CardRow -> bool
  {
    (c: CardRow) => c.setId !in gone
  }

  function CardWithId(id: nat): CardRow -> bool
  {
    (c: CardRow) => c.id == id
  }

  /** The database client, seen through the tables it changes. */
  class Db {
    var sets: seq<SetRow>
    var cards: seq<CardRow>
    var nextId: nat

    function Snapshot(): Tables
      reads this
    {
      Tables(sets, cards, nextId)
    }

    ghost predicate Valid()
      reads this
    {
      Consistent(Snapshot())
    }

    /** An empty database. */
    constructor ()
      ensures Snapshot() == Tables([], [], 0) && Valid()
    {
      sets, cards, nextId := [], [], 0;
    }

    /** `table('flashcard_sets').insert({'name': name, 'user_id': userId}).execute()`:
        the returned rows, or the exception the client raised. */
    method InsertSet(name: string, userId: string, outcome: WriteOutcome) returns (res: Result<seq<SetRow>, StoreError>)
      modifies this
      ensures cards == old(cards)
      ensures outcome.Applied? ==>
        && sets == old(sets) + [SetRow(old(nextId), name, userId)] && nextId == old(nextId) + 1
        && res == Success([SetRow(old(nextId), name, userId)])
      ensures outcome.NoData? ==> sets == old(sets) && nextId == old(nextId) && res == Success([])
      ensures outcome.Raised? ==> sets == old(sets) && nextId == old(nextId) && res == Failure(outcome.error)
    {
      match outcome
      case Applied =>
        var row := SetRow(nextId, name, userId);
        sets, nextId := sets + [row], nextId + 1;
        res := Success([row]);
      case NoData =>
        res := Success([]);
      case Raised(e) =>
        res := Failure(e);
    }

    /** `table('flashcards').insert(rows).execute()`. */
    method InsertCards(rows: seq<NewCard>, outcome: WriteOutcome) returns (res: Result<seq<CardRow>, StoreError>)
      modifies this
      ensures sets == old(sets)
      ensures outcome.Applied? ==>
        && cards == old(cards) + Numbered(rows, old(nextId)) && nextId == old(nextId) + |rows|
        && res == Success(Numbered(rows, old(nextId)))
      ensures outcome.NoData? ==> cards == old(cards) && nextId == old(nextId) && res == Success([])
      ensures outcome.Raised? ==> cards == old(cards) && nextId == old(nextId) && res == Failure(outcome.error)
    {
      match outcome
      case Applied =>
        var inserted := Numbered(rows, nextId);
        cards, nextId := cards + inserted, nextId + |rows|;
        res := Success(inserted);
      case NoData =>
        res := Success([]);
      case Raised(e) =>
        res := Failure(e);
    }

    /** `table('flashcard_sets').delete().eq('id', id)[.eq('user_id', owner)].execute()`
        where `owner` is `None` when the source filters by id only. The set's
        `flashcards` relationship, declared with `cascade="all, delete-orphan"`,
        takes the set's cards with it. */
    method DeleteSet(id: nat, owner: Option<string>, outcome: WriteOutcome) returns (res: Result<seq<SetRow>, StoreError>)
      modifies this
      ensures nextId == old(nextId)
      ensures outcome.Applied? ==>
        var deleted := Filter(old(sets), SetMatch(id, owner));
        && sets == Filter(old(sets), SetMiss(id, owner))
        && cards == Filter(old(cards), CardSurvives(SetIds(deleted)))
        && res == Success(deleted)
      ensures outcome.NoData? ==> sets == old(sets) && cards == old(cards) && res == Success([])
      ensures outcome.Raised? ==> sets == old(sets) && cards == old(cards) && res == Failure(outcome.error)
    {
      match outcome
      case Applied =>
        var deleted := Filter(sets, SetMatch(id, owner));
        sets := Filter(sets, SetMiss(id, owner));
        cards := Filter(cards, CardSurvives(SetIds(deleted)));
        res := Success(deleted);
      case NoData =>
        res := Success([]);
      case Raised(e) =>
        res := Failure(e);
    }

    /** `table('flashcards').update(patch).eq('id', id).execute()`: the updated rows. */
    method UpdateCard(id: nat, patch: CardPatch, outcome: WriteOutcome) returns (res: Result<seq<CardRow>, StoreError>)
      modifies this
      ensures sets == old(sets) && nextId == old(nextId)
      ensures outcome.Applied? ==>
        && cards == PatchCards(old(cards), id, patch)
        && res == Success(Filter(cards, CardWithId(id)))
      ensures outcome.NoData? ==> cards == old(cards) && res == Success([])
      ensures outcome.Raised? ==> cards == old(cards) && res == Failure(outcome.error)
    {
      match outcome
      case Applied =>
        cards := PatchCards(cards, id, patch);
        res := Success(Filter(cards, CardWithId(id)));
      case NoData =>
        res := Success([]);
      case Raised(e) =>
        res := Failure(e);
    }
  }
}
