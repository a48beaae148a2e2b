# The Seer: menu engine, main menu, record store and spread registry

The Seer is a console tarot application. This project models four parts of it:

- **The interactive menu engine** (`BaseMenu`). It draws a list of options, moves a `-> ` marker with the arrow keys, and turns Enter into a 1-based choice.
- **The main menu** (`MainMenu`). It loops over rounds of that engine and dispatches each choice to a handler or to the logout confirmation.
- **The JSON-backed store** (`JsonDataService`). It holds users and readings in memory. Users are upserted by Id, and readings are appended and queried per user, newest first.
- **The reading types and the spread registry** (`Reading`, `Spread`, `SpreadService`). These are the validating constructors and a read-only dictionary from reading type to spread.

The console is replaced by values:

- The keys pressed are a sequence given in advance.
- Every row the engine writes is a `Paint(line, text)`.
- The console's cursor flag is a ghost parameter.
- The main menu receives two sequences. One holds how the engine ended in each round: a returned choice, an exception, or still waiting for a key. The other holds the answers of the confirmation dialog. The main menu records what it does as an event log.
- Files are given as what a load finds.
- Identifiers and timestamps are passed in.

The engine is modelled as the code is written, not as its comments describe it. Enter returns the hovered index plus one. Escape sets the hover value to 100, which is not above 100, so it does not return 0. Instead:

- On a menu of at most 100 options, Escape repaints the old row and then fails indexing `options[100]` (`BaseMenu.EscapeIndexesOutOfRange`). The `case 0` of the main menu is therefore unreachable from the engine (`MainMenu.EngineChoicesOnMainMenu`).
- On a menu of more than 101 options, arrow moves to a row past 100 are returned as choices (`BaseMenu.UpFromTopReturnsOnLongMenu`).

The source's own comments show that Escape was meant to return 0. The engine calls 100 the marker for Escape (UI/Menus/BaseMenu.cs:71), and the main menu labels its `case 0` as Escape pressed (UI/Menus/MainMenu.cs:70). The model follows the code. Because the main menu does not catch the engine's exception, Escape ends `MainMenu.Show` (`MainMenu.EscapeEndsShow`).

Modules, one per file:

| file | module | what it holds |
|---|---|---|
| `basics.dfy` | `Basics` | Option, Result, the .NET exceptions used, `FirstOrDefault` as a first index |
| `text.dfy` | `Text` | `PadRight`, `IsNullOrWhiteSpace`, ordinal case-insensitive equality, decimal text of integers |
| `base_menu.dfy` | `BaseMenu` | the engine |
| `main_menu.dfy` | `MainMenu` | the main menu |
| `readings.dfy` | `Readings` | the Reading record |
| `data_store.dfy` | `DataStore` | the store, as a class with two list fields |
| `spreads.dfy` | `Spreads` | Spread and SpreadPosition |
| `spread_registry.dfy` | `SpreadRegistry` | the spread registry |

## Model

| member | source | states |
|---|---|---|
| Basics.FirstIndex | Services/JsonDataService.cs:39 | `FirstOrDefault`: the index found satisfies the predicate and no earlier element does; none is found only when no element satisfies it |
| Text.Spaces | UI/Menus/BaseMenu.cs:98 | `new string(' ', n)` is n blanks |
| Text.PadRight | UI/Menus/BaseMenu.cs:101 | a string at least `width` long is unchanged; a shorter one keeps its text as prefix, is exactly `width` long, and is filled with blanks |
| Text.NatToString | Models/Spread.cs:38 | the decimal text of a count is non-empty, all digits, and starts with a zero only when it is a single digit |
| Text.NatToStringRoundTrip | Models/Spread.cs:38 | the decimal digits of n read back as n |
| Text.IntToString | Models/Spread.cs:38 | a non-negative value prints as digits only, which read back as the value; a negative one prints as a minus sign followed by digits that read back as its magnitude |
| BaseMenu.Step | UI/Menus/BaseMenu.cs:66-73 | Down moves to the next row and wraps from the last to the first; Up moves to the previous row and wraps from the first to the last; both stay within the menu; the new value is never negative |
| BaseMenu.RowShape | UI/Menus/BaseMenu.cs:92-103 | a row is exactly maxWidth wide; it starts with the marker exactly when it is the hovered row, with three blanks otherwise; then the label, then blanks |
| BaseMenu.MaxLength | UI/Menus/BaseMenu.cs:46 | the longest label's length: no label is longer and some label has it |
| BaseMenu.MaxWidth | UI/Menus/BaseMenu.cs:46 | the padding width is the longest label plus the marker: every label plus the marker fits it, and some label plus the marker reaches it |
| BaseMenu.Navigate | UI/Menus/BaseMenu.cs:60-84 | the loop never reads more keys than given; it waits only once all keys are read, with the hover on a row; it fails only at index 100 on a menu of at most 100 options; every returned value is at least 1, and at most N on a menu of at most 101 options; at most two rows are repainted per key read |
| BaseMenu.NavigateMenu | UI/Menus/BaseMenu.cs:60-84 | the key-reading loop ends with the outcome, the repainted rows and the number of keys read that Navigate gives |
| BaseMenu.RenderAllOptions | UI/Menus/BaseMenu.cs:86-90 | one row per option, in order, on consecutive lines from the first, each with its marker or blanks and padded |
| BaseMenu.ShowInteractiveMenu | UI/Menus/BaseMenu.cs:26-58 | no options: the error is shown, 0 is returned, nothing is drawn and no key is read; otherwise every option is drawn with row 0 hovered, then the navigation loop from row 0 decides the outcome; the cursor is visible again once the loop has returned or thrown, and stays hidden while it waits for a key |
| BaseMenu.EnterChooses | UI/Menus/BaseMenu.cs:70-76 | Enter on row h returns the choice h + 1, which lies in 1..N, after reading one key and painting nothing |
| BaseMenu.OtherKeyIgnored | UI/Menus/BaseMenu.cs:72-78 | any other key changes nothing and repaints nothing; the loop reads the next key |
| BaseMenu.MoveRepaintsTwoRows | UI/Menus/BaseMenu.cs:78-82 | an arrow that moves the hover from p to a row q of at most 100 repaints line p without the marker, then line q with it, and nothing else, on a menu of any length |
| BaseMenu.EscapeIndexesOutOfRange | UI/Menus/BaseMenu.cs:71-81 | on a menu of at most 100 options, Escape repaints the hovered row plain and then fails indexing `options[100]`; it never returns |
| BaseMenu.UpFromTopReturnsOnLongMenu | UI/Menus/BaseMenu.cs:69-76 | on a menu of more than 101 options, Up from the top row returns N - 101 instead of moving to the last row |
| BaseMenu.Presses | UI/Menus/BaseMenu.cs:68-69 | repeated arrow presses keep the hover within the menu |
| BaseMenu.DownPresses | UI/Menus/BaseMenu.cs:68 | k presses of Down (k at most N) from h land on h + k, wrapped once |
| BaseMenu.UpPresses | UI/Menus/BaseMenu.cs:69 | k presses of Up (k at most N) from h land on h - k, wrapped once |
| BaseMenu.FullCycle | UI/Menus/BaseMenu.cs:68-69 | N presses of Down, or of Up, come back to the starting row |
| BaseMenu.ArrowStep | UI/Menus/BaseMenu.cs:66-83 | on a menu of at most 101 options, an arrow key never returns; the loop continues from the new hover value |
| BaseMenu.ArrowPressesContinue | UI/Menus/BaseMenu.cs:62-83 | on a menu of at most 101 options, k arrow presses never end the loop; it continues from the row the presses lead to, k keys later |
| BaseMenu.PressesShift | UI/Menus/BaseMenu.cs:68-69 | k presses are one press followed by k - 1 presses |
| BaseMenu.FullCycleNavigation | UI/Menus/BaseMenu.cs:62-83 | on a menu of at most 101 options, after N presses of one arrow the run ends with the same outcome as without them, N keys later |
| MainMenu.GetMenuOptions | UI/Menus/MainMenu.cs:19-29 | five distinct options, the last of them "Logout" |
| MainMenu.HandlerChoice | UI/Menus/MainMenu.cs:53-67 | each handler is reached by a choice from 1 to 4 |
| MainMenu.Dispatch | UI/Menus/MainMenu.cs:51-78 | 5 and 0 ask for logout confirmation, exactly; values outside 0..5 are unexpected, exactly; 1..4 run the handler of that number |
| MainMenu.HandlerLabels | UI/Menus/MainMenu.cs:19-67 | each handler's choice dispatches to that handler, and the option at that position carries the handler's label |
| MainMenu.Rounds | UI/Menus/MainMenu.cs:44-79 | the loop returns only with true; it ends with an exception only when some round's engine threw that exception |
| MainMenu.ShowSession | UI/Menus/MainMenu.cs:34-80 | Show never returns false; an exception ends it only when there is a user and some round's engine threw it |
| MainMenu.Show | UI/Menus/MainMenu.cs:34-80 | with no current user: the error is shown and true returned; otherwise one menu per round until a logout is confirmed or the engine throws, as ShowSession gives; never returns false |
| MainMenu.ReturnsIffConfirmed | UI/Menus/MainMenu.cs:69-73 | Show returns exactly when the confirmation dialog answered yes, and that confirmation is its last event |
| MainMenu.HandlerRoundContinues | UI/Menus/MainMenu.cs:53-67 | a choice from 1 to 4 runs its handler and the loop continues with the same answers |
| MainMenu.UnexpectedRoundContinues | UI/Menus/MainMenu.cs:75-77 | a choice outside 0..5 shows the error and the loop continues |
| MainMenu.LogoutRound | UI/Menus/MainMenu.cs:69-73 | choice 5 or 0 asks for confirmation; yes returns true, no continues with the next round |
| MainMenu.EngineChoicesOnMainMenu | UI/Menus/MainMenu.cs:46-78 | with the five options, every value the engine returns lies in 1..5 and is never unexpected; Escape first makes the engine fail at `options[100]` |
| MainMenu.EngineFailureEndsShow | UI/Menus/MainMenu.cs:44-79 | an exception from the engine in a round ends Show after that round's menu, whatever the later rounds and answers |
| MainMenu.EscapeEndsShow | UI/Menus/MainMenu.cs:44-79 | Escape as the first key of a round ends Show with the engine's out-of-range exception at index 100 |
| Readings.NewReading | Models/Reading.cs:18-31 | null or empty cards throw ArgumentException on `cards`, and nothing else throws; otherwise every field takes its argument and the cards are non-empty |
| Readings.EmptyReading | Models/Reading.cs:33-37 | the parameterless reading has no cards and no question |
| Readings.NewReadingRebuilds | Models/Reading.cs:18-31 | every reading with cards is what the constructor builds from its fields; the question defaults to null |
| Readings.EmptyReadingIsRejected | Models/Reading.cs:25-37 | the cards of the parameterless reading are exactly what the validating constructor refuses |
| DataStore.LoadFromFile | Services/JsonDataService.cs:69-90 | a parsed list is returned as is; a missing file, a failed read or a null document gives an empty list |
| DataStore.RemoveFirst | Services/JsonDataService.cs:43 | `List.Remove` removes one element when it is present and changes nothing otherwise |
| DataStore.RemoveFirstAt | Services/JsonDataService.cs:39-44 | removing the first match at i cuts out exactly position i and keeps the order |
| DataStore.Upsert | Services/JsonDataService.cs:37-49 | the saved user ends up last |
| DataStore.UpsertShape | Services/JsonDataService.cs:37-49 | an existing Id keeps the count; a new Id appends; every user with another Id is kept |
| DataStore.UpsertKeepsOthersInOrder | Services/JsonDataService.cs:39-46 | with unique Ids, SaveUser leaves the users with other Ids in their order, followed by the saved user |
| DataStore.WithoutIdAt | Services/JsonDataService.cs:39-46 | when only position i has the Id, dropping that Id removes exactly position i |
| DataStore.WithoutAbsentId | Services/JsonDataService.cs:39-46 | dropping an Id nobody has changes nothing |
| DataStore.UpsertKeepsIdsUnique | Services/JsonDataService.cs:37-49 | SaveUser keeps user Ids unique |
| DataStore.ReadingsOf | Services/JsonDataService.cs:64 | the filter keeps each reading of the user as often as it is stored, and no other reading |
| DataStore.InsertNewestFirst | Services/JsonDataService.cs:65 | inserting adds exactly the one reading |
| DataStore.InsertKeepsOrder | Services/JsonDataService.cs:65 | inserting into a newest-first list keeps it newest first |
| DataStore.SortNewestFirst | Services/JsonDataService.cs:65 | the descending sort is a permutation of its input with non-increasing timestamps |
| DataStore.InsertKeepsTies | Services/JsonDataService.cs:65 | the inserted reading comes first among the readings of its timestamp |
| DataStore.SortKeepsTies | Services/JsonDataService.cs:65 | the sort keeps the stored order of readings with equal timestamps |
| DataStore.SortIsStable | Services/JsonDataService.cs:65 | the sort is stable for every timestamp |
| DataStore.JsonDataService.constructor | Services/JsonDataService.cs:24-30 | both lists are what loading their files gives |
| DataStore.JsonDataService.GetUser | Services/JsonDataService.cs:32-35 | the first user whose name equals the given one ignoring case; none only when no name matches |
| DataStore.JsonDataService.SaveUser | Services/JsonDataService.cs:37-49 | the users become the upsert of the old list; the readings are untouched |
| DataStore.JsonDataService.GetAllUsers | Services/JsonDataService.cs:51-54 | a new array with the stored users in order |
| DataStore.JsonDataService.SaveReading | Services/JsonDataService.cs:56-60 | the reading is appended and nothing else changes |
| DataStore.JsonDataService.GetUserReadings | Services/JsonDataService.cs:62-67 | exactly the user's readings, each as often as stored, newest first, ties in stored order |
| Spreads.NewSpread | Models/Spread.cs:16-35 | the checks run in order (name, description, null positions, empty positions) and the first failure decides the exception; it fails exactly when one check fails; on success the fields are the arguments and CardCount is the number of positions, at least 1 |
| Spreads.NewSpreadRebuilds | Models/Spread.cs:16-35 | every valid spread is what the constructor builds from its own fields |
| Spreads.ToStringShowsCount | Models/Spread.cs:37-38 | the text is the name, the type in parentheses, a colon, the card count in decimal (whose digits read back as CardCount), then " card(s)" |
| SpreadRegistry.Lookup | Services/SpreadService.cs:41 | `TryGetValue` finds a spread exactly when some entry has the key, and returns that entry's spread |
| SpreadRegistry.SpreadService.GetSpread | Services/SpreadService.cs:39-45 | returns the spread registered for the type; an unregistered type throws ArgumentException on `type` with "No spread defined for" and the type's name; in a valid registry the spread is valid and of that type |
| SpreadRegistry.SpreadService.TryGetSpread | Services/SpreadService.cs:47-50 | true exactly when the type is registered, then with the spread GetSpread returns; otherwise null |
| SpreadRegistry.SpreadService.GetAllSpreads | Services/SpreadService.cs:52 | the stored spreads, one per entry, in order |
| SpreadRegistry.SpreadService.GetSpreadNames | Services/SpreadService.cs:54 | one name per spread of GetAllSpreads, in the same order |
| SpreadRegistry.SpreadService.GetCardCount | Services/SpreadService.cs:56-59 | succeeds exactly when GetSpread does, with that spread's CardCount, which in a valid registry is its number of positions and at least 1; otherwise throws the same exception |
| SpreadRegistry.InitializeSpreads | Services/SpreadService.cs:19-37 | the registry starts valid, with the single key DailyReading holding "Daily Reading" with one position |
| SpreadRegistry.EntriesAreFound | Services/SpreadService.cs:39-59 | in a registry with unique keys, every stored spread is what GetSpread returns for its key, and GetCardCount counts its positions |
| SpreadRegistry.DailyReadingHasOneCard | Services/SpreadService.cs:19-59 | the card count of DailyReading is 1, its spread has type DailyReading, the names are just "Daily Reading", and every other type throws |

## Left out

- Console output is not modelled: the header, the prompt, colours, typing speed, `TypeWrite`, `Clear` and the blank lines. Only which row is written, on which line and with what text is kept.
- `ShowError` waits for a key through `PressAnyKey`. That read is not taken from the key sequence. An error is recorded as the message alone.
- BaseMenu.ShowInteractiveMenu: a null option list is treated like an empty one, because Dafny sequences are never null. Both take the same branch in the code.
- BaseMenu.ShowInteractiveMenu: `Console.CursorTop` is passed in as `menuStartLine`, and the initial render is placed on consecutive lines from it. Console scrolling is not modelled.
- Text: lengths count characters, where .NET counts UTF-16 code units. They differ only for characters outside the Basic Multilingual Plane, which no label in the source uses. This affects `MaxWidth`, `PadRight` and `RowShape`.
- BaseMenu.Navigate: requires the hover value to be at most 100. Every hover value the loop can reach satisfies this, because a larger one is returned at once.
- BaseMenu.NavigateMenu: the `ref` write-back of the hover value to the caller is not modelled, because no caller reads it.
- MainMenu.Show: `UserManager.GetCurrentUser` is an input. How the engine ended in each round and the confirmation dialog's answers are sequences given in advance. An exception from the engine ends Show with the failing index; the exception object itself is not modelled. The four handlers and `ConfirmLogout` are recorded as events; the narrator's lines and the `ConfirmationMenu` are not modelled. When either sequence runs out, the session is reported as still waiting.
- Readings.NewReading: the reading keeps the caller's card list itself. A caller that empties that list later breaks the non-empty guarantee. The model copies the cards into a value, so aliasing with the caller's list is not captured. No code in this model mutates the list after construction.
- Spreads.NewSpread: the positions are a read-only view of the caller's list. A caller that changes that list later makes `Positions` change and `CardCount` disagree with it. The model copies the positions into a value, so this aliasing is not captured. No code in this model mutates the list after construction.
- Readings.NewReading: `Guid.NewGuid()` and `DateTime.Now` are parameters. Timestamps are integers (ticks). The fields of `Card`, and the enumerations' member names, are not modelled.
- DataStore: the fields of `User` other than `Id` and `Username` are not modelled. Neither are `Directory.CreateDirectory`, `SaveToFile`, JSON (de)serialisation and `Log`. A save that fails on disk changes nothing in memory, so in-memory behaviour is unaffected.
- DataStore.JsonDataService.GetUser: case-insensitive comparison folds ASCII letters only. .NET's ordinal-ignore-case folding of non-ASCII letters is not modelled.
- DataStore.JsonDataService.GetUserReadings: the result is a new value rather than a new list object. Aliasing between it and the store does not arise.
- SpreadRegistry: the dictionary is a sequence of entries in insertion order, which is the order `Values` enumerates while nothing has been removed. Hash-table internals are not modelled.
- Program.cs, the other menus, the managers and the narrator are not part of this model.
