/** The flashcard generator of app/services/ollama.py. It is a placeholder:
    it makes no request, ignores the text and numbers its questions and
    answers from 1. */
module Ollama {
  import opened Text
  import opened Exceptions
  import opened Schemas

  /** What a call of the generator produced: its list, or the exception it raised. */
  datatype GenOutcome = Returned(drafts: seq<Draft>) | GeneratorRaised(error: Exc)

  /** The `i`-th (from 0) pair the placeholder produces. */
  function PlaceholderDraft(i: nat): Draft
  {
    Draft("Question " + Decimal(i + 1), "Answer " + Decimal(i + 1))
  }

  /** The list the placeholder returns for `n`: `range(n)` is empty when `n <= 0`. */
  function PlaceholderDrafts(n: int): seq<Draft>
  {
    if n <= 0 then [] else PlaceholderDrafts(n - 1) + [PlaceholderDraft(n - 1)]
  }

  /** `generate_flashcards_from_text`: the loop of app/services/ollama.py:9-15. */
  method GenerateFlashcardsFromText(text: string, numFlashcards: int) returns (flashcards: seq<Draft>)
    ensures |flashcards| == if numFlashcards > 0 then numFlashcards else 0
    ensures forall i :: 0 <= i < |flashcards| ==> flashcards[i] == PlaceholderDraft(i)
    ensures flashcards == PlaceholderDrafts(numFlashcards)
  {
    flashcards := [];
    var i := 0;
    while i < numFlashcards
      invariant 0 <= i <= (if numFlashcards > 0 then numFlashcards else 0)
      invariant flashcards == PlaceholderDrafts(i)
    {
      flashcards := flashcards + [PlaceholderDraft(i)];
      i := i + 1;
    }
    PlaceholderShape(numFlashcards);
  }

  /** The placeholder returns exactly `max(n, 0)` pairs, numbered in order. */
  lemma {:induction false} PlaceholderShape(n: int)
    ensures |PlaceholderDrafts(n)| == if n > 0 then n else 0
    ensures forall i :: 0 <= i < |PlaceholderDrafts(n)| ==> PlaceholderDrafts(n)[i] == PlaceholderDraft(i)
  {
    if n > 0 {
      PlaceholderShape(n - 1);
      var init := PlaceholderDrafts(n - 1);
      assert PlaceholderDrafts(n) == init + [PlaceholderDraft(n - 1)];
      forall i | 0 <= i < n ensures PlaceholderDrafts(n)[i] == PlaceholderDraft(i) {
        if i < n - 1 { assert PlaceholderDrafts(n)[i] == init[i]; }
      }
    }
  }

  lemma PrefixedDecimalTrimmed(prefix: string, n: nat)
    requires prefix != [] && !IsSpace(prefix[0])
    ensures Trimmed(prefix + Decimal(n)) && Trim(prefix + Decimal(n)) == prefix + Decimal(n)
  {
    var s := prefix + Decimal(n);
    assert s[0] == prefix[0];
    assert s[|s| - 1] == Decimal(n)[|Decimal(n)| - 1];
    TrimUnchanged(s);
  }

  /** No generated question or answer is blank once trimmed, and trimming
      changes none of them. */
  lemma PlaceholderDraftTrimmed(i: nat)
    ensures var d := PlaceholderDraft(i);
      && Trim(d.question) == d.question != "" && Trim(d.answer) == d.answer != ""
  {
    PrefixedDecimalTrimmed("Question ", i + 1);
    PrefixedDecimalTrimmed("Answer ", i + 1);
  }

  /** Two generated questions at different positions differ. */
  lemma PlaceholderQuestionsDistinct(n: int, i: nat, j: nat)
    requires i < j < |PlaceholderDrafts(n)|
    ensures PlaceholderDrafts(n)[i].question != PlaceholderDrafts(n)[j].question
  {
    PlaceholderShape(n);
    var di, dj := Decimal(i + 1), Decimal(j + 1);
    if "Question " + di == "Question " + dj {
      PrefixCancel("Question ", di, dj);
      DecimalInjective(i + 1, j + 1);
    }
  }
}
