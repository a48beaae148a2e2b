/** A spread: a named layout of card positions for one kind of reading
    (Models/Spread.cs). Its constructor validates its arguments in a fixed order
    and throws on the first one that fails. */
module Spreads {
  import opened Basics
  import opened Text

  /** A value of the ReadingType enumeration, by its member name (what `{Type}`
      prints). */
  datatype ReadingType = ReadingType(name: string)

  const DailyReading: ReadingType := ReadingType("DailyReading")

  /** The SpreadPosition record. */
  datatype SpreadPosition = SpreadPosition(index: int, name: string, meaning: string)

  const NameMessage: string := "Spread name cannot be empty"
  const DescriptionMessage: string := "Spread description cannot be empty"
  const PositionsMessage: string := "A spread must have at least one position"

  datatype Spread = Spread(
    spreadType: ReadingType,
    cardCount: int,
    name: string,
    description: string,
    positions: seq<SpreadPosition>)
  {
    /** What the constructor guarantees of every spread it builds. */
    predicate Valid()
    {
      && !IsNullOrWhiteSpace(Some(name))
      && !IsNullOrWhiteSpace(Some(description))
      && |positions| >= 1
      && cardCount == |positions|
    }

    /** `"{Name} ({Type}): {CardCount} card(s)"`. */
    function ToString(): string
    {
      name + " (" + spreadType.name + "): " + IntToString(cardCount) + " card(s)"
    }
  }

  /** The constructor: name, then description, then a null positions list, then
      an empty one; the first check that fails decides the exception. */
  function NewSpread(spreadType: ReadingType, name: Option<string>, description: Option<string>,
                     positions: Option<seq<SpreadPosition>>): (r: Result<Spread, Exception>)
    ensures r.Failure? <==>
      IsNullOrWhiteSpace(name) || IsNullOrWhiteSpace(description) || positions.None? || |positions.value| == 0
    ensures IsNullOrWhiteSpace(name) ==> r == Failure(ArgumentException("name", NameMessage))
    ensures !IsNullOrWhiteSpace(name) && IsNullOrWhiteSpace(description)
      ==> r == Failure(ArgumentException("description", DescriptionMessage))
    ensures !IsNullOrWhiteSpace(name) && !IsNullOrWhiteSpace(description) && positions.None?
      ==> r == Failure(ArgumentNullException("positions"))
    ensures !IsNullOrWhiteSpace(name) && !IsNullOrWhiteSpace(description) && positions.Some? && |positions.value| == 0
      ==> r == Failure(ArgumentException("positions", PositionsMessage))
    ensures r.Success? ==> r.value.Valid() && r.value.cardCount == |r.value.positions| >= 1
    ensures r.Success? ==>
      && r.value.spreadType == spreadType && Some(r.value.name) == name
      && Some(r.value.description) == description && Some(r.value.positions) == positions
  {
    if IsNullOrWhiteSpace(name) then Failure(ArgumentException("name", NameMessage))
    else if IsNullOrWhiteSpace(description) then Failure(ArgumentException("description", DescriptionMessage))
    else if positions.None? then Failure(ArgumentNullException("positions"))
    else if |positions.value| == 0 then Failure(ArgumentException("positions", PositionsMessage))
    else Success(Spread(spreadType, |positions.value|, name.value, description.value, positions.value))
  }

  /** Every valid spread is what the constructor builds from its own fields. */
  lemma NewSpreadRebuilds(s: Spread)
    requires s.Valid()
    ensures NewSpread(s.spreadType, Some(s.name), Some(s.description), Some(s.positions)) == Success(s)
  {
  }

  /** The summary text: the name, the type in parentheses, then the card count,
      whose digits read back as CardCount. */
  lemma {:induction false} ToStringShowsCount(s: Spread)
    requires s.Valid()
    ensures var text := s.ToString();
      var digitsStart := |s.name| + |s.spreadType.name| + 5;
      && |text| == digitsStart + |NatToString(s.cardCount)| + 8
      && text[..|s.name|] == s.name
      && text[|s.name|..|s.name| + 2] == " ("
      && text[|s.name| + 2..digitsStart - 3] == s.spreadType.name
      && text[digitsStart - 3..digitsStart] == "): "
      && text[|text| - 8..] == " card(s)"
      && (forall i :: digitsStart <= i < |text| - 8 ==> IsDigit(text[i]))
      && DigitsValue(text[digitsStart..|text| - 8]) == s.cardCount
  {
    var digits := NatToString(s.cardCount);
    var head := s.name + " (" + s.spreadType.name + "): ";
    var text := s.ToString();
    assert text == head + digits + " card(s)";
    assert |head| == |s.name| + |s.spreadType.name| + 5;
    assert head[..|s.name|] == s.name;
    assert head[|s.name|..|s.name| + 2] == " (";
    assert head[|s.name| + 2..|head| - 3] == s.spreadType.name;
    assert head[|head| - 3..] == "): ";
    assert text[..|head|] == head;
    assert text[|head|..|text| - 8] == digits;
    assert text[|text| - 8..] == " card(s)";
    NatToStringRoundTrip(s.cardCount);
  }
}
