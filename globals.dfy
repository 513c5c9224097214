/** The global game state main.c owns and src/globals.h declares, with the
    two operations on it every scene may call: DW_exitGame and DW_setScene. */
module Globals {
  import opened CTypes
  import opened Input

  /** The scene tables (Scene_MainMenu, Scene_World). */
  datatype SceneId = MainMenuScene | WorldScene

  /** A call through a scene's `init` or `exit` pointer. */
  datatype SceneCall = Init(scene: SceneId) | Exit(scene: SceneId)

  class Globals {
    var input: InputState
    var currentScene: Option<SceneId>
    var running: bool
    /** The `init` and `exit` calls made so far, oldest first. */
    var sceneCalls: seq<SceneCall>

    ghost predicate Valid()
      reads this, input
    {
      input.Valid()
    }

    /** The state DW_initGame leaves: zeroed input, the main menu as the
        current scene and its `init` called, the game running. */
    constructor ()
      ensures Valid() && fresh(input) && fresh(input.keyStates) && fresh(input.mouseState)
      ensures forall k :: 0 <= k < input.keyStates.Length ==> input.keyStates[k] == GLFW_RELEASE
      ensures input.currentMods == 0
      ensures input.mouseX == 0 && input.mouseY == 0 && input.prevMouseX == 0 && input.prevMouseY == 0
      ensures forall b :: 0 <= b < input.mouseState.Length ==> !input.mouseState[b]
      ensures currentScene == Some(MainMenuScene) && running
      ensures sceneCalls == [Init(MainMenuScene)]
    {
      input := new InputState();
      currentScene := Some(MainMenuScene);
      running := true;
      sceneCalls := [Init(MainMenuScene)];
    }

    /** DW_exitGame: the main loop ends after the current frame. */
    method ExitGame()
      modifies this`running
      ensures !running
    {
      running := false;
    }

    /** DW_setScene: NULL changes nothing; otherwise the current scene (if
        any) is exited, the new scene becomes current, and it is then
        initialised, in that order. */
    method SetScene(scene: Option<SceneId>)
      modifies this`currentScene, this`sceneCalls
      ensures scene.None? ==> currentScene == old(currentScene) && sceneCalls == old(sceneCalls)
      ensures scene.Some? ==> currentScene == scene
      ensures scene.Some? ==>
        sceneCalls == old(sceneCalls) + ExitCalls(old(currentScene)) + [Init(scene.value)]
    {
      if scene.Some? {
        if currentScene.Some? {
          sceneCalls := sceneCalls + [Exit(currentScene.value)];
        }
        currentScene := scene;
        sceneCalls := sceneCalls + [Init(scene.value)];
      }
    }
  }

  /** The `exit` call made when leaving `current`. */
  function ExitCalls(current: Option<SceneId>): (calls: seq<SceneCall>)
    ensures |calls| <= 1
    ensures calls == [] <==> current.None?
    ensures forall c :: c in calls ==> c == Exit(current.value)
  {
    if current.Some? then [Exit(current.value)] else []
  }
}
