/** The main menu scene's selection (src/scenes/mainmenu.c): a cursor over
    the options 1 = "Play" and 2 = "Exit", moved by W/Up and S/Down and
    acted on by Enter. */
module MainMenu {
  import opened CTypes
  import opened Input
  import opened Globals

  /** The number of menu options. */
  const SELECTION_MAX: int := 2

  const SELECTION_PLAY: int := 1
  const SELECTION_EXIT: int := 2

  predicate InMenu(index: int)
  {
    1 <= index <= SELECTION_MAX
  }

  predicate IsUpKey(key: int)
  {
    key == GLFW_KEY_W || key == GLFW_KEY_UP
  }

  predicate IsDownKey(key: int)
  {
    key == GLFW_KEY_S || key == GLFW_KEY_DOWN
  }

  /** The cursor one option up, wrapping from the first to the last; the
      decrement is on uint8_t. */
  function SelectUp(index: uint8): (r: uint8)
    ensures InMenu(index) ==> InMenu(r) && r != index
    ensures !InMenu(index) ==> r % U8_LIMIT == (index - 1) % U8_LIMIT
  {
    if index == 1 then SELECTION_MAX as uint8 else ToUInt8(index - 1)
  }

  /** The cursor one option down, wrapping from the last to the first; the
      increment is on uint8_t. */
  function SelectDown(index: uint8): (r: uint8)
    ensures InMenu(index) ==> InMenu(r) && r != index
    ensures !InMenu(index) ==> r % U8_LIMIT == (index + 1) % U8_LIMIT
  {
    if index == SELECTION_MAX then 1 else ToUInt8(index + 1)
  }

  /** The selection after one key event. From an option of the menu it
      stays on the menu, and it moves exactly on a press of W, Up, S or
      Down. */
  function NextSelection(index: uint8, key: int, action: int): (r: uint8)
    ensures InMenu(index) ==> InMenu(r)
    ensures InMenu(index) ==> (r != index <==> action == GLFW_PRESS && (IsUpKey(key) || IsDownKey(key)))
  {
    if action != GLFW_PRESS then index
    else if IsUpKey(key) then SelectUp(index)
    else if IsDownKey(key) then SelectDown(index)
    else index
  }

  /** Whether a key event makes the menu call DW_exitGame. Such an event
      finds the cursor on the menu and leaves it where it is. */
  function ExitsGame(index: uint8, key: int, action: int): (exits: bool)
    ensures exits ==> InMenu(index) && NextSelection(index, key, action) == index
  {
    action == GLFW_PRESS && key == GLFW_KEY_ENTER && index == SELECTION_EXIT
  }

  class Menu {
    var selectionIndex: uint8

    constructor ()
      ensures selectionIndex == SELECTION_PLAY
    {
      selectionIndex := SELECTION_PLAY as uint8;
    }

    /** MainMenu_onKey. */
    method OnKey(g: Globals, key: int32, scancode: int32, action: int32, mods: int32)
      modifies this`selectionIndex, g`running
      ensures selectionIndex == NextSelection(old(selectionIndex), key, action)
      ensures ExitsGame(old(selectionIndex), key, action) ==> !g.running
      ensures !ExitsGame(old(selectionIndex), key, action) ==> g.running == old(g.running)
    {
      if action == GLFW_PRESS {
        if key == GLFW_KEY_W || key == GLFW_KEY_UP {
          if selectionIndex == 1 {
            selectionIndex := SELECTION_MAX as uint8;
          } else {
            selectionIndex := ToUInt8(selectionIndex - 1);
          }
        } else if key == GLFW_KEY_S || key == GLFW_KEY_DOWN {
          if selectionIndex == SELECTION_MAX {
            selectionIndex := 1;
          } else {
            selectionIndex := ToUInt8(selectionIndex + 1);
          }
        } else if key == GLFW_KEY_ENTER {
          if selectionIndex == 1 {
          } else if selectionIndex == 2 {
            g.ExitGame();
          }
        }
      }
    }
  }

  // ---------------------------------------------------------------------
  // Properties of the selection

  /** Up and down undo each other on the menu's options. */
  lemma UpDownInverse(index: uint8)
    requires InMenu(index)
    ensures SelectDown(SelectUp(index)) == index
    ensures SelectUp(SelectDown(index)) == index
  {
  }

  /** With two options, up and down both move to the other option. */
  lemma UpIsDown(index: uint8)
    requires InMenu(index)
    ensures SelectUp(index) == SelectDown(index) == SELECTION_MAX + 1 - index
  {
  }

  /** Any event other than a press of W, Up, S, Down or Enter leaves both
      the selection and the running flag alone, whatever the selection. */
  lemma IgnoredEventsChangeNothing(index: uint8, key: int, action: int)
    requires action != GLFW_PRESS || !(IsUpKey(key) || IsDownKey(key) || key == GLFW_KEY_ENTER)
    ensures NextSelection(index, key, action) == index
    ensures !ExitsGame(index, key, action)
  {
  }

  /** Exiting needs Enter pressed with "Exit" selected, and on "Play"
      Enter does nothing. */
  lemma EnterActsOnSelection(index: uint8, action: int)
    requires InMenu(index)
    ensures NextSelection(index, GLFW_KEY_ENTER, action) == index
    ensures ExitsGame(index, GLFW_KEY_ENTER, action) <==> action == GLFW_PRESS && index == SELECTION_EXIT
    ensures index == SELECTION_PLAY ==> !ExitsGame(index, GLFW_KEY_ENTER, action)
  {
  }

  /** A key event as the menu receives it. */
  datatype KeyEvent = KeyEvent(key: int, action: int)

  /** The selection after a sequence of key events: from an option of
      the menu, no sequence moves it off the menu. */
  function Replay(index: uint8, events: seq<KeyEvent>): (r: uint8)
    ensures InMenu(index) ==> InMenu(r)
    decreases |events|
  {
    if events == [] then index
    else Replay(NextSelection(index, events[0].key, events[0].action), events[1..])
  }

  /** Whether some event of the sequence, replayed from `index`, exits;
      a sequence that exits holds a press of Enter. */
  function ReplayExits(index: uint8, events: seq<KeyEvent>): (exits: bool)
    ensures exits ==> exists i :: 0 <= i < |events| && events[i] == KeyEvent(GLFW_KEY_ENTER, GLFW_PRESS)
    decreases |events|
  {
    events != []
    && (ExitsGame(index, events[0].key, events[0].action)
        || ReplayExits(NextSelection(index, events[0].key, events[0].action), events[1..]))
  }

  /** The game exits on a replay exactly when some Enter press arrives
      while "Exit" is selected. */
  lemma {:induction false} ReplayExitsAt(index: uint8, events: seq<KeyEvent>)
    ensures ReplayExits(index, events) <==>
      exists i :: 0 <= i < |events| && ExitsGame(Replay(index, events[..i]), events[i].key, events[i].action)
    decreases |events|
  {
    if events != [] {
      var e := events[0];
      var next := NextSelection(index, e.key, e.action);
      ReplayExitsAt(next, events[1..]);
      assert events[..0] == [];
      forall i | 1 <= i < |events|
        ensures Replay(index, events[..i]) == Replay(next, events[1..][..i - 1])
      {
        assert events[..i][1..] == events[1..][..i - 1];
      }
      if ReplayExits(next, events[1..]) && !ExitsGame(index, e.key, e.action) {
        var j :| 0 <= j < |events[1..]| && ExitsGame(Replay(next, events[1..][..j]), events[1..][j].key, events[1..][j].action);
        assert ExitsGame(Replay(index, events[..j + 1]), events[j + 1].key, events[j + 1].action);
      }
      if exists i :: 0 <= i < |events| && ExitsGame(Replay(index, events[..i]), events[i].key, events[i].action) {
        var i :| 0 <= i < |events| && ExitsGame(Replay(index, events[..i]), events[i].key, events[i].action);
        if i > 0 {
          assert ExitsGame(Replay(next, events[1..][..i - 1]), events[1..][i - 1].key, events[1..][i - 1].action);
        }
      }
    }
  }
}
