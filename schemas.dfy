/** The request records the service layer passes around
    (`FlashcardCreate` and `FlashcardSetCreate` in app/schemas/schemas.py,
    with the fields app/crud/crud.py reads from them). */
module Schemas {

  /** A question/answer pair before it is stored: user input or generator output. */
  datatype Draft = Draft(question: string, answer: string)

  /** A set to create: its name and its candidate cards, in input order. */
  datatype SetInput = SetInput(name: string, flashcards: seq<Draft>)
}
