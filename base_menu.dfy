/** The interactive menu engine shared by every menu (UI/Menus/BaseMenu.cs).

    The console is replaced by values: the keys the user presses are a sequence
    given in advance, and what the engine draws is a log of `Paint`s, one per row
    written. The engine is modelled as the code is written: Enter and Escape are
    encoded by adding to the hover index, and a value is returned only when that
    index exceeds 100. */
module BaseMenu {
  import opened Text

  /** The keys the engine distinguishes; every other key is `Other`. */
  datatype Key = Down | Up | Enter | Escape | Other

  /** The marker drawn in front of the hovered row. */
  const MenuPrefix: string := "-> "

  /** Shown when a menu has no options. */
  const NoOptionsError: string := "No menu options available."

  /** One row written to the console: the line it lands on and its text. During
      the first render the rows land on consecutive lines from the menu's first
      line; a repaint positions the cursor on the row's line first. */
  datatype Paint = Paint(line: int, text: string)

  /** How a run of the navigation loop ends. */
  datatype Outcome =
    | Returned(choice: int)        // the loop returned this value
    | IndexOutOfRange(index: int)  // `options[index]` threw
    | AwaitingKey(hovered: int)    // every key was read; the loop waits for the next

  /** An outcome, the rows painted on the way, and how many keys were read. */
  datatype Run = Run(outcome: Outcome, paints: seq<Paint>, keysRead: nat)

  /** The hover update for one key (the switch expression of NavigateMenu). Up
      and Down wrap around; Enter adds 101 and Escape yields 100, the two values
      the loop reads as "return" markers. */
  function Step(hovered: int, key: Key, count: int): (next: int)
    requires 0 <= hovered < count
    ensures next >= 0
    ensures key == Down ==> next == (if hovered == count - 1 then 0 else hovered + 1)
    ensures key == Up ==> next == (if hovered == 0 then count - 1 else hovered - 1)
    ensures key == Down || key == Up ==> next < count
  {
    match key
    case Down => (hovered + 1) % count
    case Up => (hovered - 1 + count) % count
    case Enter => hovered + 101
    case Escape => 100
    case Other => hovered
  }

  /** The text of row `index` when row `hovered` is highlighted: the marker or as
      many blanks, then the label, padded on the right to `maxWidth`. */
  function RenderRow(index: int, hovered: int, optionText: string, maxWidth: nat): string
  {
    var prefix := if index == hovered then MenuPrefix else Spaces(|MenuPrefix|);
    PadRight(prefix + optionText, maxWidth)
  }

  /** Every row is exactly `maxWidth` wide when the label fits, starts with the
      marker exactly when it is the hovered row, then shows the label, then blanks. */
  lemma RowShape(index: int, hovered: int, optionText: string, maxWidth: nat)
    requires |MenuPrefix| + |optionText| <= maxWidth
    ensures var row := RenderRow(index, hovered, optionText, maxWidth);
      && |row| == maxWidth
      && (row[..|MenuPrefix|] == MenuPrefix <==> index == hovered)
      && (index != hovered ==> row[..|MenuPrefix|] == Spaces(|MenuPrefix|))
      && row[|MenuPrefix|..|MenuPrefix| + |optionText|] == optionText
      && forall i :: |MenuPrefix| + |optionText| <= i < maxWidth ==> row[i] == ' '
  {
    var prefix := if index == hovered then MenuPrefix else Spaces(|MenuPrefix|);
    var row := RenderRow(index, hovered, optionText, maxWidth);
    assert row[..|prefix + optionText|] == prefix + optionText;
    assert row[..|MenuPrefix|] == (prefix + optionText)[..|MenuPrefix|] == prefix;
    assert row[|MenuPrefix|..|MenuPrefix| + |optionText|] == (prefix + optionText)[|MenuPrefix|..] == optionText;
    assert Spaces(|MenuPrefix|)[0] == ' ' != MenuPrefix[0];
  }

  /** The length of the longest label (`options.Max(opt => opt.Length)`). */
  function MaxLength(options: seq<string>): (m: nat)
    requires |options| > 0
    ensures forall i :: 0 <= i < |options| ==> |options[i]| <= m
    ensures exists i :: 0 <= i < |options| && |options[i]| == m
  {
    if |options| == 1 then |options[0]|
    else
      var rest := MaxLength(options[1..]);
      assert forall i :: 1 <= i < |options| ==> options[i] == options[1..][i - 1];
      if |options[0]| >= rest then |options[0]| else rest
  }

  /** The width every row is padded to: the longest label plus the marker. */
  function MaxWidth(options: seq<string>): (w: nat)
    requires |options| > 0
    ensures forall i :: 0 <= i < |options| ==> |MenuPrefix| + |options[i]| <= w
    ensures exists i :: 0 <= i < |options| && |MenuPrefix| + |options[i]| == w
  {
    MaxLength(options) + |MenuPrefix|
  }

  /** The navigation loop (NavigateMenu) run on `keys` from hover `hovered`, as a
      function: for each key, the new hover value; a value above 100 is returned
      minus 100; otherwise, when the hover changed, the old row is repainted plain
      and then the new row highlighted, each at `startLine` plus its index. */
  function Navigate(options: seq<string>, keys: seq<Key>, hovered: int, startLine: int, maxWidth: nat): (r: Run)
    requires 0 <= hovered < |options| && hovered <= 100
    ensures r.keysRead <= |keys|
    ensures r.outcome.AwaitingKey? ==> r.keysRead == |keys| && 0 <= r.outcome.hovered < |options|
    ensures r.outcome.IndexOutOfRange? ==> r.outcome.index == 100 && |options| <= 100
    ensures r.outcome.Returned? ==> 1 <= r.outcome.choice
    ensures r.outcome.Returned? && |options| <= 101 ==> r.outcome.choice <= |options|
    ensures |r.paints| <= 2 * r.keysRead
    decreases |keys|
  {
    if |keys| == 0 then Run(AwaitingKey(hovered), [], 0)
    else
      var next := Step(hovered, keys[0], |options|);
      if next > 100 then Run(Returned(next - 100), [], 1)
      else if next == hovered then
        var rest := Navigate(options, keys[1..], hovered, startLine, maxWidth);
        Run(rest.outcome, rest.paints, rest.keysRead + 1)
      else
        var plain := Paint(startLine + hovered, RenderRow(hovered, next, options[hovered], maxWidth));
        if next >= |options| then Run(IndexOutOfRange(next), [plain], 1)
        else
          var lit := Paint(startLine + next, RenderRow(next, next, options[next], maxWidth));
          var rest := Navigate(options, keys[1..], next, startLine, maxWidth);
          Run(rest.outcome, [plain, lit] + rest.paints, rest.keysRead + 1)
  }

  /** NavigateMenu: reads keys until a value above 100 comes out of the hover
      update. `cursorVisible` is the console's cursor flag, hidden throughout. */
  method NavigateMenu(options: seq<string>, keys: seq<Key>, hovered0: int, startLine: int, maxWidth: nat, ghost cursorVisible: bool)
    returns (outcome: Outcome, paints: seq<Paint>, keysRead: nat)
    requires 0 <= hovered0 < |options| && hovered0 <= 100
    requires !cursorVisible
    ensures Run(outcome, paints, keysRead) == Navigate(options, keys, hovered0, startLine, maxWidth)
  {
    var hovered := hovered0;
    paints, keysRead := [], 0;
    while true
      invariant keysRead <= |keys|
      invariant 0 <= hovered < |options| && hovered <= 100
      invariant var rest := Navigate(options, keys[keysRead..], hovered, startLine, maxWidth);
        Navigate(options, keys, hovered0, startLine, maxWidth) == Run(rest.outcome, paints + rest.paints, keysRead + rest.keysRead)
      decreases |keys| - keysRead
    {
      if keysRead == |keys| {
        return AwaitingKey(hovered), paints, keysRead;
      }
      ghost var before := Navigate(options, keys[keysRead..], hovered, startLine, maxWidth);
      assert keys[keysRead..][1..] == keys[keysRead + 1..];
      var previous := hovered;
      hovered := Step(hovered, keys[keysRead], |options|);
      keysRead := keysRead + 1;
      if hovered > 100 {
        assert before == Run(Returned(hovered - 100), [], 1);
        return Returned(hovered - 100), paints, keysRead;
      }
      if previous != hovered {
        var plain := Paint(startLine + previous, RenderRow(previous, hovered, options[previous], maxWidth));
        if hovered >= |options| {
          assert before == Run(IndexOutOfRange(hovered), [plain], 1);
          return IndexOutOfRange(hovered), paints + [plain], keysRead;
        }
        var lit := Paint(startLine + hovered, RenderRow(hovered, hovered, options[hovered], maxWidth));
        ghost var after := Navigate(options, keys[keysRead..], hovered, startLine, maxWidth);
        assert before == Run(after.outcome, [plain, lit] + after.paints, after.keysRead + 1);
        assert (paints + [plain, lit]) + after.paints == paints + ([plain, lit] + after.paints);
        paints := paints + [plain, lit];
      } else {
        ghost var after := Navigate(options, keys[keysRead..], hovered, startLine, maxWidth);
        assert before == Run(after.outcome, after.paints, after.keysRead + 1);
      }
    }
  }

  /** RenderAllOptions: every option once, top to bottom, from `firstLine`. */
  method RenderAllOptions(options: seq<string>, hovered: int, firstLine: int, maxWidth: nat, ghost cursorVisible: bool)
    returns (paints: seq<Paint>)
    requires !cursorVisible
    ensures |paints| == |options|
    ensures forall i :: 0 <= i < |options| ==> paints[i] == Paint(firstLine + i, RenderRow(i, hovered, options[i], maxWidth))
  {
    paints := [];
    for i := 0 to |options|
      invariant |paints| == i
      invariant forall k :: 0 <= k < i ==> paints[k] == Paint(firstLine + k, RenderRow(k, hovered, options[k], maxWidth))
    {
      paints := paints + [Paint(firstLine + i, RenderRow(i, hovered, options[i], maxWidth))];
    }
  }

  /** ShowInteractiveMenu without its header: an empty option list reports an
      error and returns 0 before any key is read; otherwise the cursor is hidden,
      all rows are drawn with row 0 hovered, the navigation loop runs, and the
      cursor is shown again once the loop has returned or thrown (the `finally`
      block); while the loop still waits for a key it stays hidden.
      `menuStartLine` is the console's cursor row. */
  method ShowInteractiveMenu(options: seq<string>, keys: seq<Key>, menuStartLine: nat, ghost cursorBefore: bool)
    returns (outcome: Outcome, paints: seq<Paint>, keysRead: nat, errors: seq<string>, ghost cursorVisible: bool)
    ensures |options| == 0 ==> outcome == Returned(0) && paints == [] && keysRead == 0
    ensures |options| == 0 ==> errors == [NoOptionsError] && cursorVisible == cursorBefore
    ensures |options| > 0 ==> errors == [] && (cursorVisible <==> !outcome.AwaitingKey?)
    ensures |options| > 0 ==>
      var w := MaxWidth(options);
      var nav := Navigate(options, keys, 0, menuStartLine, w);
      && outcome == nav.outcome && keysRead == nav.keysRead
      && |paints| == |options| + |nav.paints|
      && (forall i :: 0 <= i < |options| ==> paints[i] == Paint(menuStartLine + i, RenderRow(i, 0, options[i], w)))
      && paints[|options|..] == nav.paints
  {
    cursorVisible := cursorBefore;
    if |options| == 0 {
      return Returned(0), [], 0, [NoOptionsError], cursorVisible;
    }
    errors := [];
    var hoveredOption := 0;
    var maxWidth := MaxWidth(options);
    cursorVisible := false;
    var initial := RenderAllOptions(options, hoveredOption, menuStartLine, maxWidth, cursorVisible);
    var navPaints;
    outcome, navPaints, keysRead := NavigateMenu(options, keys, hoveredOption, menuStartLine, maxWidth, cursorVisible);
    // The `finally` block runs once the loop has returned or thrown; a loop
    // still waiting for a key has not left the `try`.
    cursorVisible := !outcome.AwaitingKey?;
    paints := initial + navPaints;
  }

  /** Enter at hover `h` returns the 1-based choice h + 1 at once; in particular
      Enter as the first key returns 1. */
  lemma EnterChooses(options: seq<string>, rest: seq<Key>, h: int, startLine: int, maxWidth: nat)
    requires 0 <= h < |options| && h <= 100
    ensures Navigate(options, [Enter] + rest, h, startLine, maxWidth) == Run(Returned(h + 1), [], 1)
    ensures 1 <= h + 1 <= |options|
  {
  }

  /** A key other than Up, Down, Enter and Escape changes nothing and paints nothing. */
  lemma OtherKeyIgnored(options: seq<string>, rest: seq<Key>, h: int, startLine: int, maxWidth: nat)
    requires 0 <= h < |options| && h <= 100
    ensures var after := Navigate(options, rest, h, startLine, maxWidth);
      Navigate(options, [Other] + rest, h, startLine, maxWidth) == Run(after.outcome, after.paints, after.keysRead + 1)
  {
    assert ([Other] + rest)[1..] == rest;
  }

  /** When Up or Down moves the hover from p to q, exactly two rows are repainted:
      line startLine + p without the marker, then line startLine + q with it. */
  lemma MoveRepaintsTwoRows(options: seq<string>, key: Key, rest: seq<Key>, p: int, startLine: int, maxWidth: nat)
    requires 0 <= p < |options| && p <= 100
    requires key == Down || key == Up
    requires Step(p, key, |options|) != p && Step(p, key, |options|) <= 100
    ensures var q := Step(p, key, |options|);
      var after := Navigate(options, rest, q, startLine, maxWidth);
      Navigate(options, [key] + rest, p, startLine, maxWidth)
        == Run(after.outcome,
               [Paint(startLine + p, RenderRow(p, q, options[p], maxWidth)),
                Paint(startLine + q, RenderRow(q, q, options[q], maxWidth))] + after.paints,
               after.keysRead + 1)
  {
    assert ([key] + rest)[1..] == rest;
  }

  /** Escape does not cancel: on a menu of at most 100 options it repaints the
      hovered row plain and then fails indexing `options[100]`. */
  lemma EscapeIndexesOutOfRange(options: seq<string>, rest: seq<Key>, h: int, startLine: int, maxWidth: nat)
    requires 0 <= h < |options| <= 100
    ensures Navigate(options, [Escape] + rest, h, startLine, maxWidth)
      == Run(IndexOutOfRange(100), [Paint(startLine + h, RenderRow(h, 100, options[h], maxWidth))], 1)
  {
  }

  /** On a menu of more than 101 options, Up from the top row lands on a hover
      value above 100 and is returned as the choice N - 101 instead of moving to
      the last row. */
  lemma UpFromTopReturnsOnLongMenu(options: seq<string>, rest: seq<Key>, startLine: int, maxWidth: nat)
    requires |options| > 101
    ensures Navigate(options, [Up] + rest, 0, startLine, maxWidth) == Run(Returned(|options| - 101), [], 1)
  {
  }

  /** The hover value after pressing `key` `k` times from `h`. */
  function Presses(h: int, key: Key, k: nat, count: int): (hover: int)
    requires 0 <= h < count
    requires key == Down || key == Up
    ensures 0 <= hover < count
  {
    if k == 0 then h else Step(Presses(h, key, k - 1, count), key, count)
  }

  /** Down k times from h (k at most N) lands on h + k, wrapped once past the last row. */
  lemma {:induction false} DownPresses(h: int, k: nat, count: int)
    requires 0 <= h < count && k <= count
    ensures Presses(h, Down, k, count) == if h + k < count then h + k else h + k - count
  {
    if k > 0 {
      DownPresses(h, k - 1, count);
    }
  }

  /** Up k times from h (k at most N) lands on h - k, wrapped once past the first row. */
  lemma {:induction false} UpPresses(h: int, k: nat, count: int)
    requires 0 <= h < count && k <= count
    ensures Presses(h, Up, k, count) == if k <= h then h - k else h - k + count
  {
    if k > 0 {
      UpPresses(h, k - 1, count);
    }
  }

  /** N presses of Down, or of Up, come back to the starting row. */
  lemma FullCycle(h: int, count: int)
    requires 0 <= h < count
    ensures Presses(h, Down, count, count) == h
    ensures Presses(h, Up, count, count) == h
  {
    DownPresses(h, count, count);
    UpPresses(h, count, count);
  }

  function Repeat(key: Key, k: nat): (keys: seq<Key>)
    ensures |keys| == k && forall i :: 0 <= i < k ==> keys[i] == key
  {
    if k == 0 then [] else [key] + Repeat(key, k - 1)
  }

  /** On a menu of at most 101 options, k arrow presses never return: the loop
      goes on from the hover value they lead to, having read k more keys. */
  lemma {:induction false} ArrowPressesContinue(options: seq<string>, key: Key, k: nat, rest: seq<Key>, h: int, startLine: int, maxWidth: nat)
    requires 0 <= h < |options| <= 101
    requires key == Down || key == Up
    ensures var after := Navigate(options, rest, Presses(h, key, k, |options|), startLine, maxWidth);
      var run := Navigate(options, Repeat(key, k) + rest, h, startLine, maxWidth);
      run.outcome == after.outcome && run.keysRead == k + after.keysRead
  {
    if k > 0 {
      var q := Step(h, key, |options|);
      var keys := Repeat(key, k) + rest;
      assert keys[0] == key;
      assert keys[1..] == Repeat(key, k - 1) + rest;
      ArrowStep(options, keys, h, startLine, maxWidth);
      ArrowPressesContinue(options, key, k - 1, rest, q, startLine, maxWidth);
      PressesShift(h, key, k, |options|);
    } else {
      assert Repeat(key, k) + rest == rest;
    }
  }

  /** On a menu of at most 101 options, one arrow key never returns: the run goes
      on from the new hover value, one key later. */
  lemma ArrowStep(options: seq<string>, keys: seq<Key>, h: int, startLine: int, maxWidth: nat)
    requires 0 <= h < |options| <= 101
    requires |keys| > 0 && (keys[0] == Down || keys[0] == Up)
    ensures var after := Navigate(options, keys[1..], Step(h, keys[0], |options|), startLine, maxWidth);
      var run := Navigate(options, keys, h, startLine, maxWidth);
      run.outcome == after.outcome && run.keysRead == after.keysRead + 1
  {
  }

  /** Pressing k times from h is pressing once and then k - 1 times. */
  lemma {:induction false} PressesShift(h: int, key: Key, k: nat, count: int)
    requires 0 <= h < count && k > 0
    requires key == Down || key == Up
    ensures Presses(h, key, k, count) == Presses(Step(h, key, count), key, k - 1, count)
  {
    if k > 1 {
      PressesShift(h, key, k - 1, count);
    }
  }

  /** On a menu of at most 101 options, N presses of Down (or of Up) leave the
      menu exactly where it was: the rest of the run is the same. */
  lemma FullCycleNavigation(options: seq<string>, key: Key, rest: seq<Key>, h: int, startLine: int, maxWidth: nat)
    requires 0 <= h < |options| <= 101
    requires key == Down || key == Up
    ensures var after := Navigate(options, rest, h, startLine, maxWidth);
      var run := Navigate(options, Repeat(key, |options|) + rest, h, startLine, maxWidth);
      run.outcome == after.outcome && run.keysRead == |options| + after.keysRead
  {
    ArrowPressesContinue(options, key, |options|, rest, h, startLine, maxWidth);
    FullCycle(h, |options|);
  }
}
