/** The spread registry (Services/SpreadService.cs): a dictionary from reading
    type to spread, built once when the service is created and afterwards only
    read.

    The dictionary is modelled as its entries in insertion order, which is the
    order in which `Values` enumerates them while nothing has been removed. */
module SpreadRegistry {
  import opened Basics
  import opened Spreads
  import opened Text

  datatype Entry = Entry(key: ReadingType, spread: Spread)

  /** `TryGetValue` on the entries: the spread stored under `t`, if any. */
  function Lookup(entries: seq<Entry>, t: ReadingType): (r: Option<Spread>)
    ensures r.None? <==> forall i :: 0 <= i < |entries| ==> entries[i].key != t
    ensures r.Some? ==> exists i :: 0 <= i < |entries| && entries[i].key == t && entries[i].spread == r.value
  {
    if |entries| == 0 then None
    else if entries[0].key == t then Some(entries[0].spread)
    else
      var rest := Lookup(entries[1..], t);
      assert forall i :: 1 <= i < |entries| ==> entries[i] == entries[1..][i - 1];
      rest
  }

  /** The message GetSpread throws with, `{type}` printing the member name. */
  function NoSpreadMessage(t: ReadingType): string
  {
    "No spread defined for " + t.name
  }

  datatype SpreadService = SpreadService(entries: seq<Entry>)
  {
    /** A dictionary holds each key once; the registry stores valid spreads
        under their own type. */
    predicate Valid()
    {
      && (forall i, j :: 0 <= i < j < |entries| ==> entries[i].key != entries[j].key)
      && (forall i :: 0 <= i < |entries| ==> entries[i].spread.Valid() && entries[i].spread.spreadType == entries[i].key)
    }

    predicate Registered(t: ReadingType)
    {
      exists i :: 0 <= i < |entries| && entries[i].key == t
    }

    /** The registered spread for `t`; an unregistered type throws
        ArgumentException naming the parameter `type`. */
    function GetSpread(t: ReadingType): (r: Result<Spread, Exception>)
      ensures r.Success? <==> Registered(t)
      ensures r.Success? ==> exists i :: 0 <= i < |entries| && entries[i].key == t && entries[i].spread == r.value
      ensures r.Failure? ==> r.error == ArgumentException("type", NoSpreadMessage(t))
      ensures Valid() && r.Success? ==> r.value.spreadType == t && r.value.Valid()
    {
      match Lookup(entries, t)
      case Some(s) => Success(s)
      case None => Failure(ArgumentException("type", NoSpreadMessage(t)))
    }

    /** `TryGetSpread`: whether `t` is registered, and the spread GetSpread would
        return (null when it is not). */
    function TryGetSpread(t: ReadingType): (r: (bool, Option<Spread>))
      ensures r.0 <==> Registered(t)
      ensures r.0 ==> r.1 == Some(GetSpread(t).value)
      ensures !r.0 ==> r.1 == None
    {
      var found := Lookup(entries, t);
      (found.Some?, found)
    }

    /** `Values`: the stored spreads in enumeration order. */
    function GetAllSpreads(): (spreads: seq<Spread>)
      ensures |spreads| == |entries|
      ensures forall i :: 0 <= i < |entries| ==> spreads[i] == entries[i].spread
    {
      seq(|entries|, i requires 0 <= i < |entries| => entries[i].spread)
    }

    /** `Values.Select(s => s.Name)`: one name per spread, in the same order. */
    function GetSpreadNames(): (names: seq<string>)
      ensures |names| == |GetAllSpreads()|
      ensures forall i :: 0 <= i < |names| ==> names[i] == GetAllSpreads()[i].name
    {
      var spreads := GetAllSpreads();
      seq(|spreads|, i requires 0 <= i < |spreads| => spreads[i].name)
    }

    /** The card count of the spread for `t`, throwing as GetSpread does. */
    function GetCardCount(t: ReadingType): (r: Result<int, Exception>)
      ensures r.Success? <==> GetSpread(t).Success?
      ensures r.Success? ==> r.value == GetSpread(t).value.cardCount
      ensures r.Failure? ==> r.error == ArgumentException("type", NoSpreadMessage(t))
      ensures Valid() && r.Success? ==> r.value == |GetSpread(t).value.positions| >= 1
    {
      match GetSpread(t)
      case Success(s) => Success(s.cardCount)
      case Failure(e) => Failure(e)
    }
  }

  const DailyName: string := "Daily Reading"
  const DailyDescription: string :=
    "This, my friend, "
    + "is a chance to glimpse your day ahead of it happening. One card, for one day. What say you, Traveler?"
  const OneLight: SpreadPosition := SpreadPosition(0, "The One Light",
    "In this reading, that may only be offered once per day, the One Light will illuminate what's ahead of you; good or evil, this will show what awaits you.")

  /** The registry the service starts with: the daily reading, one position. */
  function InitializeSpreads(): (service: SpreadService)
    ensures service.Valid()
    ensures |service.entries| == 1 && service.entries[0].key == DailyReading
    ensures service.entries[0].spread.name == DailyName && service.entries[0].spread.positions == [OneLight]
  {
    assert !IsNullOrWhiteSpace(Some(DailyName)) by { assert !IsWhiteSpace(DailyName[0]); }
    assert !IsNullOrWhiteSpace(Some(DailyDescription)) by { assert !IsWhiteSpace(DailyDescription[0]); }
    var r := NewSpread(DailyReading, Some(DailyName), Some(DailyDescription), Some([OneLight]));
    SpreadService([Entry(DailyReading, r.value)])
  }

  /** In a valid registry every stored spread is what GetSpread returns for its
      key, and what GetCardCount counts. */
  lemma {:induction false} EntriesAreFound(service: SpreadService, i: int)
    requires service.Valid() && 0 <= i < |service.entries|
    ensures service.GetSpread(service.entries[i].key) == Success(service.entries[i].spread)
    ensures service.GetCardCount(service.entries[i].key) == Success(|service.entries[i].spread.positions|)
  {
    var t := service.entries[i].key;
    var r := service.GetSpread(t);
    assert service.Registered(t);
    var j :| 0 <= j < |service.entries| && service.entries[j].key == t && service.entries[j].spread == r.value;
    assert j == i;
  }

  /** The initial registry knows the daily reading only: its spread is named
      "Daily Reading", has type DailyReading and one card; any other type throws. */
  lemma DailyReadingHasOneCard(t: ReadingType)
    ensures InitializeSpreads().GetCardCount(DailyReading) == Success(1)
    ensures InitializeSpreads().GetSpread(DailyReading).value.spreadType == DailyReading
    ensures InitializeSpreads().GetSpreadNames() == [DailyName]
    ensures t != DailyReading ==> InitializeSpreads().GetSpread(t) == Failure(ArgumentException("type", NoSpreadMessage(t)))
  {
    var service := InitializeSpreads();
    EntriesAreFound(service, 0);
    assert service.GetSpreadNames()[0] == DailyName;
  }
}
