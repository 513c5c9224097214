/** Keyboard and mouse state (struct Input in src/input.h) and the key
    query of src/input.c. Key codes and actions are those of GLFW 3. */
module Input {
  import opened CTypes

  const GLFW_RELEASE: int := 0
  const GLFW_PRESS: int := 1
  const GLFW_REPEAT: int := 2

  const GLFW_KEY_ENTER: int := 257
  const GLFW_KEY_DOWN: int := 264
  const GLFW_KEY_UP: int := 265
  const GLFW_KEY_S: int := 83
  const GLFW_KEY_W: int := 87

  /** The key codes the game tracks: GLFW_KEY_SPACE up to GLFW_KEY_LAST. */
  const KEY_FIRST: int := 32
  const KEY_LAST: int := 348
  const KEY_STATE_COUNT: int := 349
  const MOUSE_BUTTON_COUNT: int := 8

  predicate TrackedKey(key: int)
  {
    KEY_FIRST <= key <= KEY_LAST
  }

  class InputState {
    var mouseX: uint32
    var mouseY: uint32
    var prevMouseX: uint32
    var prevMouseY: uint32
    var mouseState: array<bool>
    /** The last GLFW action recorded for each key code, truncated to uint8_t. */
    var keyStates: array<uint8>
    var currentMods: uint32

    ghost predicate Valid()
      reads this
    {
      mouseState.Length == MOUSE_BUTTON_COUNT && keyStates.Length == KEY_STATE_COUNT
    }

    /** calloc(1, sizeof(Input_t)): every field zero, so every key released. */
    constructor ()
      ensures Valid() && fresh(mouseState) && fresh(keyStates)
      ensures mouseX == 0 && mouseY == 0 && prevMouseX == 0 && prevMouseY == 0 && currentMods == 0
      ensures forall b :: 0 <= b < mouseState.Length ==> !mouseState[b]
      ensures forall k :: 0 <= k < keyStates.Length ==> keyStates[k] == GLFW_RELEASE
    {
      mouseX, mouseY, prevMouseX, prevMouseY := 0, 0, 0, 0;
      mouseState := new bool[MOUSE_BUTTON_COUNT](_ => false);
      keyStates := new uint8[KEY_STATE_COUNT](_ => 0);
      currentMods := 0;
    }

    /** DW_isKeyDown: any key outside the tracked range reads as up; a
        tracked key is down unless its last action was a release. */
    function IsKeyDown(key: int32): (down: bool)
      reads this, keyStates
      requires Valid()
      ensures !TrackedKey(key) ==> !down
      ensures TrackedKey(key) ==> (down <==> keyStates[key] != GLFW_RELEASE)
    {
      if key < KEY_FIRST || key > KEY_LAST then false
      else keyStates[key] != GLFW_RELEASE
    }
  }
}
