/**
  The two menus around a session. The settings menu cycles the chosen
  resolution and background; the game-over menu moves a selection between
  "Replay" and "Quit" and reports the choice when Return is pressed.
  Drawing, preference saving and display changes are not part of this
  model; only the index arithmetic and the resulting choices are.
*/
module Menus {
  import opened Wrappers
  import opened Grid
  import opened Keys

  /** What a settings-menu click or shortcut asks for. */
  datatype Action = ToggleBorderless | ChangeResolution | CycleBackground | Back

  /** The keyboard shortcuts of the settings menu: T, R, G and B. */
  function ShortcutAction(k: Key): (a: Option<Action>)
    ensures a.Some? <==> k in {KeyT, KeyR, KeyG, KeyB}
    // each action has exactly one shortcut
    ensures a == Some(ToggleBorderless) <==> k == KeyT
    ensures a == Some(ChangeResolution) <==> k == KeyR
    ensures a == Some(CycleBackground) <==> k == KeyG
    ensures a == Some(Back) <==> k == KeyB
  {
    match k
    case KeyT => Some(ToggleBorderless)
    case KeyR => Some(ChangeResolution)
    case KeyG => Some(CycleBackground)
    case KeyB => Some(Back)
    case _ => None
  }

  /** The next resolution in the list, wrapping from the last back to the first. */
  function NextResolution(i: int): (r: int)
    ensures 0 <= r < |Resolutions|
    ensures 0 <= i < |Resolutions| - 1 ==> r == i + 1
    ensures i == |Resolutions| - 1 ==> r == 0
  {
    (i + 1) % |Resolutions|
  }

  /**
    The next of `n` background files, wrapping from the last back to the
    first; from "none" (-1) it goes to the first file.
  */
  function NextBackground(i: int, n: int): (r: int)
    requires n > 0
    ensures 0 <= r < n
    ensures -1 <= i < n - 1 ==> r == i + 1
    ensures i == n - 1 ==> r == 0
  {
    (i + 1) % n
  }

  /** Pressing the resolution shortcut `k` times in a row from `i`. */
  function CycleResolution(i: int, k: nat): (r: int) {
    if k == 0 then i else NextResolution(CycleResolution(i, k - 1))
  }

  /** One more step from a wrapped index is the wrapped successor. */
  lemma WrapStep(x: nat)
    ensures NextResolution(x % 4) == (x + 1) % 4
  {
    var q, r := x / 4, x % 4;
    assert x == 4 * q + r;
    if r < 3 {
      assert x + 1 == 4 * q + (r + 1);
    } else {
      assert x + 1 == 4 * (q + 1);
    }
  }

  /** Cycling steps through the resolutions in order, so every one of them is reachable. */
  lemma {:induction false} CycleResolutionSteps(i: int, k: nat)
    requires 0 <= i < |Resolutions|
    ensures CycleResolution(i, k) == (i + k) % |Resolutions|
  {
    if k == 0 {
      assert i % 4 == i;
    } else {
      CycleResolutionSteps(i, k - 1);
      WrapStep(i + k - 1);
    }
  }

  /** Cycling as many times as there are resolutions comes back to the start. */
  lemma CycleResolutionPeriod(i: int)
    requires 0 <= i < |Resolutions|
    ensures CycleResolution(i, |Resolutions|) == i
  {
    CycleResolutionSteps(i, |Resolutions|);
  }

  /** The settings the menu changes: window resolution, borderless flag, background choice. */
  class SettingsMenu {
    var resIndex: int
    var borderless: bool
    var bgIndex: int
    var closed: bool

    constructor (res: int, noFrame: bool, bg: int)
      requires 0 <= res < |Resolutions|
      ensures resIndex == res && borderless == noFrame && bgIndex == bg && !closed
    {
      resIndex, borderless, bgIndex, closed := res, noFrame, bg, false;
    }

    /** One chosen action; `bgFiles` is the number of background images found. */
    method Apply(a: Action, bgFiles: nat)
      requires 0 <= resIndex < |Resolutions|
      modifies this
      ensures 0 <= resIndex < |Resolutions|
      ensures borderless == (if a == ToggleBorderless then !old(borderless) else old(borderless))
      ensures resIndex == (if a == ChangeResolution then NextResolution(old(resIndex)) else old(resIndex))
      ensures bgIndex == (if a == CycleBackground && bgFiles > 0 then NextBackground(old(bgIndex), bgFiles) else old(bgIndex))
      ensures closed == (old(closed) || a == Back)
    {
      match a
      case ToggleBorderless => borderless := !borderless;
      case ChangeResolution => resIndex := (resIndex + 1) % |Resolutions|;
      case CycleBackground =>
        if bgFiles > 0 {
          bgIndex := (bgIndex + 1) % bgFiles;
        }
      case Back => closed := true;
    }
  }

  /** The labels of the game-over menu, in order. */
  const GameOverOptions: seq<string> := ["Replay", "Quit"]

  /** Up in the game-over menu: the previous option, wrapping from the first to the last. */
  function SelectionUp(i: int): (r: int)
    ensures 0 <= r < |GameOverOptions|
    ensures 0 < i < |GameOverOptions| ==> r == i - 1
    ensures i == 0 ==> r == |GameOverOptions| - 1
  {
    (i - 1) % |GameOverOptions|
  }

  /** Down in the game-over menu: the next option, wrapping from the last to the first. */
  function SelectionDown(i: int): (r: int)
    ensures 0 <= r < |GameOverOptions|
    ensures 0 <= i < |GameOverOptions| - 1 ==> r == i + 1
    ensures i == |GameOverOptions| - 1 ==> r == 0
    ensures 0 <= i < |GameOverOptions| ==> SelectionUp(r) == i
  {
    (i + 1) % |GameOverOptions|
  }

  /** The game-over menu: a selection that starts on "Replay". */
  class GameOverMenu {
    var idx: int

    constructor ()
      ensures idx == 0
    {
      idx := 0;
    }

    /**
      A key press: Up/W and Down/S move the selection, Return reports
      whether "Replay" is selected, any other key does nothing.
    */
    method KeyDown(k: Key) returns (choice: Option<bool>)
      requires 0 <= idx < |GameOverOptions|
      modifies this
      ensures 0 <= idx < |GameOverOptions|
      ensures k in {ArrowUp, KeyW} ==> idx == SelectionUp(old(idx)) && choice == None
      ensures k in {ArrowDown, KeyS} ==> idx == SelectionDown(old(idx)) && choice == None
      ensures k == KeyReturn ==> idx == old(idx) && choice == Some(GameOverOptions[idx] == "Replay")
      ensures k !in {ArrowUp, KeyW, ArrowDown, KeyS, KeyReturn} ==> idx == old(idx) && choice == None
    {
      choice := None;
      if k in {ArrowUp, KeyW} {
        idx := (idx - 1) % |GameOverOptions|;
      } else if k in {ArrowDown, KeyS} {
        idx := (idx + 1) % |GameOverOptions|;
      } else if k == KeyReturn {
        choice := Some(idx == 0);
      }
    }
  }
}
