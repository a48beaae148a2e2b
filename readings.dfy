/** A tarot reading record (Models/Reading.cs): who it is for, which spread and
    deck, the cards drawn, when, and the question asked.

    `Guid.NewGuid()` and `DateTime.Now` are not modelled; the identifier and the
    timestamp are passed in. */
module Readings {
  import opened Basics

  /** The spread and deck enumerations, by their numeric value (0 is the default). */
  datatype SpreadType = SpreadType(ordinal: nat)
  datatype DeckType = DeckType(ordinal: nat)

  /** A card drawn, by number; Card's own fields are not part of this model. */
  datatype Card = Card(number: nat)

  /** `Timestamp` is a `DateTime` in ticks; `default(DateTime)` is tick 0. */
  datatype Reading = Reading(
    id: Guid,
    userId: Guid,
    spreadType: SpreadType,
    deck: DeckType,
    cards: seq<Card>,
    timestamp: int,
    question: Option<string>)

  const NoCardsMessage: string := "A reading must have at least one card"

  /** The validating constructor: a null or empty card list throws
      ArgumentException; otherwise every field takes its argument. */
  function NewReading(id: Guid, userId: Guid, spreadType: SpreadType, deck: DeckType,
                      cards: Option<seq<Card>>, timestamp: int, question: Option<string> := None)
    : (r: Result<Reading, Exception>)
    ensures r.Failure? <==> cards.None? || |cards.value| == 0
    ensures r.Failure? ==> r.error == ArgumentException("cards", NoCardsMessage)
    ensures r.Success? ==> r.value.cards == cards.value && |r.value.cards| > 0
    ensures r.Success? ==> r.value.userId == userId && r.value.spreadType == spreadType && r.value.deck == deck
    ensures r.Success? ==> r.value.id == id && r.value.timestamp == timestamp && r.value.question == question
  {
    if cards.None? || |cards.value| == 0 then Failure(ArgumentException("cards", NoCardsMessage))
    else Success(Reading(id, userId, spreadType, deck, cards.value, timestamp, question))
  }

  /** The parameterless constructor used when readings are loaded: no cards, no
      question, every other field at its default. */
  function EmptyReading(): (r: Reading)
    ensures r.cards == [] && r.question == None
  {
    Reading(EmptyGuid, EmptyGuid, SpreadType(0), DeckType(0), [], 0, None)
  }

  /** Every reading with at least one card is what the validating constructor
      builds from its own fields; the question defaults to null. */
  lemma NewReadingRebuilds(r: Reading)
    requires |r.cards| > 0
    ensures NewReading(r.id, r.userId, r.spreadType, r.deck, Some(r.cards), r.timestamp, r.question) == Success(r)
    ensures NewReading(r.id, r.userId, r.spreadType, r.deck, Some(r.cards), r.timestamp).Success?
    ensures NewReading(r.id, r.userId, r.spreadType, r.deck, Some(r.cards), r.timestamp).value.question == None
  {
  }

  /** The parameterless constructor yields exactly the state the validating one
      refuses: its cards, passed back in, make the constructor throw. */
  lemma EmptyReadingIsRejected()
    ensures var e := EmptyReading();
      NewReading(e.id, e.userId, e.spreadType, e.deck, Some(e.cards), e.timestamp, e.question)
        == Failure(ArgumentException("cards", NoCardsMessage))
  {
  }
}
