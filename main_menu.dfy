/** The main menu shown to a logged-in user (UI/Menus/MainMenu.cs): five fixed
    options, and a loop that maps the engine's result to an action until the user
    confirms logging out.

    How the engine ended in each round, and the answers of the logout
    confirmation dialog, one per time it is asked, are given as sequences; the
    four handlers and the dialog are recorded in an event log rather than run.
    An exception from the engine is not caught: it ends Show. */
module MainMenu {
  import opened Basics
  import BaseMenu

  /** The options in display order (GetMenuOptions). */
  function GetMenuOptions(): (options: seq<string>)
    ensures |options| == 5 && options[|options| - 1] == "Logout"
    ensures forall i, j :: 0 <= i < j < |options| ==> options[i] != options[j]
  {
    ["New Reading", "View Reading History", "Profile Settings", "About The Seer", "Logout"]
  }

  const Prompt: string := "What mysteries do you seek, traveler?"
  const NoUserError: string := "No user is currently logged in."
  const UnexpectedChoiceError: string := "An unexpected choice... try again."

  /** The title of every round: the chamber and the user's name. */
  function Title(username: string): string
  {
    "The Seer's Chamber - " + username
  }

  /** The four actions a choice can run before the menu is shown again. */
  datatype Handler = NewReading | ReadingHistory | ProfileSettings | About

  /** The 1-based menu choice that runs a handler. */
  function HandlerChoice(h: Handler): (choice: int)
    ensures 1 <= choice <= 4
  {
    match h
    case NewReading => 1
    case ReadingHistory => 2
    case ProfileSettings => 3
    case About => 4
  }

  /** What the switch of Show does with a choice. */
  datatype Branch = Handle(handler: Handler) | ConfirmLogout | Unexpected

  /** The switch of Show: 1 to 4 run their handler, 5 (Logout) and 0 (what the
      engine was meant to return for Escape) ask for confirmation, anything else
      is unexpected. */
  function Dispatch(choice: int): (b: Branch)
    ensures b.ConfirmLogout? <==> choice == 5 || choice == 0
    ensures b.Unexpected? <==> choice < 0 || choice > 5
    ensures b.Handle? ==> HandlerChoice(b.handler) == choice
  {
    if choice == 1 then Handle(NewReading)
    else if choice == 2 then Handle(ReadingHistory)
    else if choice == 3 then Handle(ProfileSettings)
    else if choice == 4 then Handle(About)
    else if choice == 5 || choice == 0 then ConfirmLogout
    else Unexpected
  }

  /** Each handler is reached from exactly its own option: the label at its
      position is the handler's menu entry. */
  lemma HandlerLabels(h: Handler)
    ensures Dispatch(HandlerChoice(h)) == Handle(h)
    ensures GetMenuOptions()[HandlerChoice(h) - 1] == match h
      case NewReading => "New Reading"
      case ReadingHistory => "View Reading History"
      case ProfileSettings => "Profile Settings"
      case About => "About The Seer"
  {
  }

  /** What Show did, in order. */
  datatype Event =
    | MenuShown(title: string, prompt: string)  // a round of the interactive menu
    | Handled(handler: Handler)
    | LogoutAsked(confirmed: bool)              // ConfirmLogout and the dialog's answer
    | ErrorShown(message: string)

  /** Show returned this value, is still in its loop (or waiting for a key in
      the engine), or was ended by the engine indexing `options[index]` out of
      range. */
  datatype Status = Returned(logout: bool) | Waiting | Threw(index: int)

  datatype Session = Session(status: Status, events: seq<Event>)

  function Then(events: seq<Event>, s: Session): Session
  {
    Session(s.status, events + s.events)
  }

  /** The rounds of Show's loop for `username`: one menu per engine run, until
      a logout is confirmed, the engine throws, or the runs or answers run out. */
  function Rounds(username: string, runs: seq<BaseMenu.Outcome>, answers: seq<bool>): (s: Session)
    ensures s.status.Returned? ==> s.status.logout
    ensures s.status.Threw? ==> exists i :: 0 <= i < |runs| && runs[i] == BaseMenu.IndexOutOfRange(s.status.index)
    decreases |runs|
  {
    if |runs| == 0 then Session(Waiting, [])
    else
      var shown := MenuShown(Title(username), Prompt);
      match runs[0]
      case AwaitingKey(_) => Session(Waiting, [shown])
      case IndexOutOfRange(index) => Session(Threw(index), [shown])
      case Returned(choice) =>
        var rest := Rounds(username, runs[1..], answers);
        assert rest.status.Threw? ==> exists i :: 1 <= i < |runs| && runs[i] == BaseMenu.IndexOutOfRange(rest.status.index)
          by { assert forall i :: 0 <= i < |runs| - 1 ==> runs[1..][i] == runs[i + 1]; }
        match Dispatch(choice)
        case Handle(h) => Then([shown, Handled(h)], rest)
        case Unexpected => Then([shown, ErrorShown(UnexpectedChoiceError)], rest)
        case ConfirmLogout =>
          if |answers| == 0 then Session(Waiting, [shown])
          else if answers[0] then Session(Returned(true), [shown, LogoutAsked(true)])
          else
            var after := Rounds(username, runs[1..], answers[1..]);
            assert after.status.Threw? ==> exists i :: 1 <= i < |runs| && runs[i] == BaseMenu.IndexOutOfRange(after.status.index)
              by { assert forall i :: 0 <= i < |runs| - 1 ==> runs[1..][i] == runs[i + 1]; }
            Then([shown, LogoutAsked(false)], after)
  }

  /** Show as a function of the current user and the two oracles. */
  function ShowSession(currentUser: Option<string>, runs: seq<BaseMenu.Outcome>, answers: seq<bool>): (s: Session)
    ensures s.status.Returned? ==> s.status.logout
    ensures s.status.Threw? ==> currentUser.Some? && BaseMenu.IndexOutOfRange(s.status.index) in runs
  {
    match currentUser
    case None => Session(Returned(true), [ErrorShown(NoUserError)])
    case Some(username) => Rounds(username, runs, answers)
  }

  /** Show: without a user, reports an error and returns true; otherwise loops
      over rounds of the menu until a logout is confirmed or the engine throws. */
  method Show(currentUser: Option<string>, runs: seq<BaseMenu.Outcome>, answers: seq<bool>) returns (status: Status, events: seq<Event>)
    ensures Session(status, events) == ShowSession(currentUser, runs, answers)
    ensures currentUser.None? ==> status == Returned(true) && events == [ErrorShown(NoUserError)]
    ensures status != Returned(false)
  {
    if currentUser.None? {
      return Returned(true), [ErrorShown(NoUserError)];
    }
    var username := currentUser.value;
    ghost var whole := Rounds(username, runs, answers);
    assert runs[0..] == runs && answers[0..] == answers;
    events := [];
    var round, asked := 0, 0;
    while true
      invariant round <= |runs| && asked <= |answers|
      invariant var rest := Rounds(username, runs[round..], answers[asked..]);
        whole == Session(rest.status, events + rest.events)
      decreases |runs| - round
    {
      if round == |runs| {
        return Waiting, events;
      }
      ghost var before := Rounds(username, runs[round..], answers[asked..]);
      assert runs[round..][1..] == runs[round + 1..];
      var shown := MenuShown(Title(username), Prompt);
      var run := runs[round];
      round := round + 1;
      match run
      case AwaitingKey(_) =>
        return Waiting, events + [shown];
      case IndexOutOfRange(index) =>
        return Threw(index), events + [shown];
      case Returned(choice) =>
        match Dispatch(choice)
        case Handle(h) =>
          assert before == Then([shown, Handled(h)], Rounds(username, runs[round..], answers[asked..]));
          ghost var after := Rounds(username, runs[round..], answers[asked..]);
          assert (events + [shown, Handled(h)]) + after.events == events + ([shown, Handled(h)] + after.events);
          events := events + [shown, Handled(h)];
        case Unexpected =>
          assert before == Then([shown, ErrorShown(UnexpectedChoiceError)], Rounds(username, runs[round..], answers[asked..]));
          ghost var after := Rounds(username, runs[round..], answers[asked..]);
          assert (events + [shown, ErrorShown(UnexpectedChoiceError)]) + after.events == events + ([shown, ErrorShown(UnexpectedChoiceError)] + after.events);
          events := events + [shown, ErrorShown(UnexpectedChoiceError)];
        case ConfirmLogout =>
          if asked == |answers| {
            return Waiting, events + [shown];
          }
          var confirmed := answers[asked];
          asked := asked + 1;
          if confirmed {
            return Returned(true), events + [shown, LogoutAsked(true)];
          }
          assert answers[asked - 1..][1..] == answers[asked..];
          assert before == Then([shown, LogoutAsked(false)], Rounds(username, runs[round..], answers[asked..]));
          ghost var after := Rounds(username, runs[round..], answers[asked..]);
          assert (events + [shown, LogoutAsked(false)]) + after.events == events + ([shown, LogoutAsked(false)] + after.events);
          events := events + [shown, LogoutAsked(false)];
    }
  }

  /** Show returns exactly when a logout was confirmed, and then the confirmation
      is its last event. */
  lemma {:induction false} ReturnsIffConfirmed(username: string, runs: seq<BaseMenu.Outcome>, answers: seq<bool>)
    ensures var s := Rounds(username, runs, answers);
      s.status.Returned? <==> LogoutAsked(true) in s.events
    ensures var s := Rounds(username, runs, answers);
      s.status.Returned? ==> |s.events| > 0 && s.events[|s.events| - 1] == LogoutAsked(true)
    decreases |runs|
  {
    if |runs| > 0 && runs[0].Returned? {
      var shown := MenuShown(Title(username), Prompt);
      match Dispatch(runs[0].choice)
      case Handle(h) =>
        ReturnsIffConfirmed(username, runs[1..], answers);
        var rest := Rounds(username, runs[1..], answers);
        assert LogoutAsked(true) in [shown, Handled(h)] + rest.events <==> LogoutAsked(true) in rest.events;
      case Unexpected =>
        ReturnsIffConfirmed(username, runs[1..], answers);
        var rest := Rounds(username, runs[1..], answers);
        assert LogoutAsked(true) in [shown, ErrorShown(UnexpectedChoiceError)] + rest.events <==> LogoutAsked(true) in rest.events;
      case ConfirmLogout =>
        if |answers| > 0 && !answers[0] {
          ReturnsIffConfirmed(username, runs[1..], answers[1..]);
          var rest := Rounds(username, runs[1..], answers[1..]);
          assert LogoutAsked(true) in [shown, LogoutAsked(false)] + rest.events <==> LogoutAsked(true) in rest.events;
        }
    }
  }

  /** A choice from 1 to 4 runs its handler and the loop goes on with the next
      round, the answers untouched. */
  lemma HandlerRoundContinues(username: string, choice: int, runs: seq<BaseMenu.Outcome>, answers: seq<bool>)
    requires 1 <= choice <= 4
    ensures Dispatch(choice).Handle?
    ensures Rounds(username, [BaseMenu.Returned(choice)] + runs, answers)
      == Then([MenuShown(Title(username), Prompt), Handled(Dispatch(choice).handler)], Rounds(username, runs, answers))
  {
    assert ([BaseMenu.Returned(choice)] + runs)[1..] == runs;
  }

  /** A choice outside 0 to 5 reports an unexpected choice and the loop goes on. */
  lemma UnexpectedRoundContinues(username: string, choice: int, runs: seq<BaseMenu.Outcome>, answers: seq<bool>)
    requires choice < 0 || choice > 5
    ensures Rounds(username, [BaseMenu.Returned(choice)] + runs, answers)
      == Then([MenuShown(Title(username), Prompt), ErrorShown(UnexpectedChoiceError)], Rounds(username, runs, answers))
  {
    assert ([BaseMenu.Returned(choice)] + runs)[1..] == runs;
  }

  /** Choosing Logout (5) or 0 asks for confirmation: a yes returns true, a no
      goes on with the next round. */
  lemma LogoutRound(username: string, choice: int, runs: seq<BaseMenu.Outcome>, answer: bool, answers: seq<bool>)
    requires choice == 5 || choice == 0
    ensures var shown := MenuShown(Title(username), Prompt);
      Rounds(username, [BaseMenu.Returned(choice)] + runs, [answer] + answers)
        == if answer then Session(Returned(true), [shown, LogoutAsked(true)])
           else Then([shown, LogoutAsked(false)], Rounds(username, runs, answers))
  {
    assert ([BaseMenu.Returned(choice)] + runs)[1..] == runs;
    assert ([answer] + answers)[1..] == answers;
  }

  /** The engine's exception is not caught: the round's menu was shown, and Show
      ends with it, whatever the later rounds and answers would have been. */
  lemma EngineFailureEndsShow(username: string, index: int, runs: seq<BaseMenu.Outcome>, answers: seq<bool>)
    ensures Rounds(username, [BaseMenu.IndexOutOfRange(index)] + runs, answers)
      == Session(Threw(index), [MenuShown(Title(username), Prompt)])
  {
  }

  /** With the engine as written and the five main-menu options, every value it
      returns is a choice from 1 to 5: the `0` case and the default branch of the
      switch are never reached, and Escape makes the engine fail instead. */
  lemma EngineChoicesOnMainMenu(keys: seq<BaseMenu.Key>, startLine: int)
    ensures var options := GetMenuOptions();
      var run := BaseMenu.Navigate(options, keys, 0, startLine, BaseMenu.MaxWidth(options));
      run.outcome.Returned? ==> 1 <= run.outcome.choice <= 5 && !Dispatch(run.outcome.choice).Unexpected?
    ensures var options := GetMenuOptions();
      BaseMenu.Navigate(options, [BaseMenu.Escape] + keys, 0, startLine, BaseMenu.MaxWidth(options)).outcome
        == BaseMenu.IndexOutOfRange(100)
  {
    var options := GetMenuOptions();
    BaseMenu.EscapeIndexesOutOfRange(options, keys, 0, startLine, BaseMenu.MaxWidth(options));
  }

  /** Escape as the first key of a round ends Show: the main menu's engine
      fails at `options[100]` and nothing later happens. */
  lemma EscapeEndsShow(username: string, keys: seq<BaseMenu.Key>, startLine: int, runs: seq<BaseMenu.Outcome>, answers: seq<bool>)
    ensures var options := GetMenuOptions();
      var first := BaseMenu.Navigate(options, [BaseMenu.Escape] + keys, 0, startLine, BaseMenu.MaxWidth(options)).outcome;
      Rounds(username, [first] + runs, answers) == Session(Threw(100), [MenuShown(Title(username), Prompt)])
  {
    EngineChoicesOnMainMenu(keys, startLine);
    EngineFailureEndsShow(username, 100, runs, answers);
  }
}
