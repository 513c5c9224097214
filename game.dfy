/** src/main.c: the GLFW key callback and the arithmetic of one pass of the
    fixed-timestep game loop (milliseconds, unsigned 64- and 32-bit
    counters). */
module Game {
  import opened CTypes
  import opened Input
  import opened Globals
  import opened MainMenu

  /** The length of one game tick, in milliseconds (20 ticks a second). */
  const MS_PER_TICK: int := 50
  /** The largest frame time the accumulator is fed, in milliseconds. */
  const MAX_DELTA_TIME: int := 250
  /** How often the FPS and TPS counters are published, in milliseconds. */
  const FPS_INTERVAL: int := 1000

  /** The most ticks one frame can run: a remainder below one tick plus
      the largest frame time. */
  const MAX_TICKS_PER_FRAME: int := (MS_PER_TICK - 1 + MAX_DELTA_TIME) / MS_PER_TICK

  // ---------------------------------------------------------------------
  // Key callback

  /** DW_keyCallback: a key code in the tracked range records the action
      and the modifiers, then goes to the current scene's key handler; any
      other key code is dropped before it can index keyStates. Of the
      scenes, only the main menu's handler does anything. */
  method KeyCallback(g: Globals, menu: Menu, key: int32, scancode: int32, action: int32, mods: int32)
    requires g.Valid()
    modifies g.input.keyStates, g.input`currentMods, menu`selectionIndex, g`running
    ensures g.Valid()
    ensures !TrackedKey(key) ==>
      && g.input.keyStates[..] == old(g.input.keyStates[..])
      && g.input.currentMods == old(g.input.currentMods)
    ensures TrackedKey(key) ==>
      && g.input.keyStates[..] == old(g.input.keyStates[..])[key := ToUInt8(action)]
      && g.input.currentMods == ToUInt32(mods)
    ensures TrackedKey(key) && action == GLFW_PRESS ==> g.input.IsKeyDown(key)
    ensures TrackedKey(key) && action == GLFW_REPEAT ==> g.input.IsKeyDown(key)
    ensures TrackedKey(key) && action == GLFW_RELEASE ==> !g.input.IsKeyDown(key)
    ensures TrackedKey(key) && g.currentScene == Some(MainMenuScene) ==>
      && menu.selectionIndex == NextSelection(old(menu.selectionIndex), key, action)
      && g.running == (old(g.running) && !ExitsGame(old(menu.selectionIndex), key, action))
    ensures !(TrackedKey(key) && g.currentScene == Some(MainMenuScene)) ==>
      menu.selectionIndex == old(menu.selectionIndex) && g.running == old(g.running)
  {
    if key >= KEY_FIRST && key <= KEY_LAST {
      g.input.keyStates[key] := ToUInt8(action);
      g.input.currentMods := ToUInt32(mods);
      if g.currentScene == Some(MainMenuScene) {
        menu.OnKey(g, key, scancode, action, mods);
      }
    }
  }

  // ---------------------------------------------------------------------
  // Frame timing, as functions

  /** `currentTime - lastTime` on uint64_t. */
  function Elapsed(now: uint64, before: uint64): (d: uint64)
    ensures (before + d) % U64_LIMIT == now
    ensures now >= before ==> d == now - before
  {
    (now - before) % U64_LIMIT
  }

  /** The frame time after the cap against the spiral of death. */
  function ClampedDelta(now: uint64, before: uint64): (d: nat)
    ensures d <= MAX_DELTA_TIME && d <= Elapsed(now, before)
    ensures d == MAX_DELTA_TIME || d == Elapsed(now, before)
  {
    var delta := Elapsed(now, before);
    if delta > MAX_DELTA_TIME then MAX_DELTA_TIME else delta
  }

  /** The inner `while (accumulator >= MS_PER_TICK)` loop, as the number
      of ticks it runs and the accumulator it leaves. */
  function Drain(acc: nat): (r: (nat, nat))
    ensures r.1 < MS_PER_TICK && r.1 <= acc
    ensures r.0 == 0 <==> acc < MS_PER_TICK
    decreases acc
  {
    if acc < MS_PER_TICK then (0, acc)
    else
      var rest := Drain(acc - MS_PER_TICK);
      (rest.0 + 1, rest.1)
  }

  /** Draining runs one tick per whole MS_PER_TICK and keeps the
      remainder. */
  lemma {:induction false} DrainIsDivMod(acc: nat)
    ensures Drain(acc) == (acc / MS_PER_TICK, acc % MS_PER_TICK)
    decreases acc
  {
    if acc >= MS_PER_TICK {
      DrainIsDivMod(acc - MS_PER_TICK);
    }
  }

  /** Consequently no time is lost or made up: the ticks run and the
      remainder add back to the accumulated time, and the remainder is
      less than one tick. */
  lemma DrainConserves(acc: nat)
    ensures Drain(acc).0 * MS_PER_TICK + Drain(acc).1 == acc
    ensures Drain(acc).1 < MS_PER_TICK
  {
    DrainIsDivMod(acc);
  }

  /** With the cap, one frame never runs more than MAX_TICKS_PER_FRAME
      ticks, however long the frame took. */
  lemma TicksPerFrameBounded(acc: nat, now: uint64, before: uint64)
    requires acc < MS_PER_TICK
    ensures Drain(acc + ClampedDelta(now, before)).0 <= MAX_TICKS_PER_FRAME
  {
    DrainIsDivMod(acc + ClampedDelta(now, before));
  }

  /** The ticks run over a run of frames with the given (capped) frame
      times, and the accumulator left at the end. */
  function RunFrames(acc: nat, deltas: seq<nat>): (r: (nat, nat))
    ensures deltas != [] ==> r.1 < MS_PER_TICK
    ensures acc < MS_PER_TICK ==> r.1 < MS_PER_TICK
    decreases |deltas|
  {
    if deltas == [] then (0, acc)
    else
      var frame := Drain(acc + deltas[0]);
      var rest := RunFrames(frame.1, deltas[1..]);
      (frame.0 + rest.0, rest.1)
  }

  function Sum(deltas: seq<nat>): nat
    decreases |deltas|
  {
    if deltas == [] then 0 else deltas[0] + Sum(deltas[1..])
  }

  /** Over any run of frames started with less than one tick pending, the
      game runs exactly one tick per whole MS_PER_TICK of (capped) time,
      carrying the remainder from frame to frame. */
  lemma {:induction false} RunFramesConserves(acc: nat, deltas: seq<nat>)
    requires acc < MS_PER_TICK
    ensures RunFrames(acc, deltas).0 * MS_PER_TICK + RunFrames(acc, deltas).1 == acc + Sum(deltas)
    ensures RunFrames(acc, deltas).0 == (acc + Sum(deltas)) / MS_PER_TICK
    ensures RunFrames(acc, deltas).1 == (acc + Sum(deltas)) % MS_PER_TICK
    decreases |deltas|
  {
    if deltas == [] {
      DrainIsDivMod(acc);
    } else {
      var frame := Drain(acc + deltas[0]);
      DrainConserves(acc + deltas[0]);
      RunFramesConserves(frame.1, deltas[1..]);
      var total := RunFrames(acc, deltas);
      assert total.0 * MS_PER_TICK + total.1 == acc + Sum(deltas);
      DrainIsDivMod(acc + Sum(deltas));
      DivModUnique(acc + Sum(deltas), total.0, total.1);
    }
  }

  /** Quotient and remainder by MS_PER_TICK are unique. */
  lemma DivModUnique(n: nat, q: nat, r: nat)
    requires q * MS_PER_TICK + r == n && r < MS_PER_TICK
    ensures q == n / MS_PER_TICK && r == n % MS_PER_TICK
  {
  }

  /** Whether the FPS counter is published this frame. */
  function FpsDue(now: uint64, lastFPSTime: uint64): (due: bool)
    ensures now >= lastFPSTime ==> (due <==> now - lastFPSTime >= FPS_INTERVAL)
    ensures now < lastFPSTime ==> (due <==> now + U64_LIMIT - lastFPSTime >= FPS_INTERVAL)
  {
    Elapsed(now, lastFPSTime) >= FPS_INTERVAL
  }

  // ---------------------------------------------------------------------
  // The loop's state

  /** The local timing variables of main() and the fps/tps globals. */
  class FrameClock {
    var lastTime: uint64
    var accumulator: uint64
    var lastFPSTime: uint64
    var ticks: uint32
    var frames: uint32
    var fps: uint32
    var tps: uint32

    /** Between frames less than one tick is pending, so adding a capped
        frame time cannot overflow the accumulator. */
    ghost predicate Valid()
      reads this
    {
      accumulator < MS_PER_TICK
    }

    /** The initialisation before the loop, at start time `now`. */
    constructor (now: uint64)
      ensures Valid()
      ensures lastTime == now && accumulator == 0 && lastFPSTime == now
      ensures ticks == 0 && frames == 0 && fps == 0 && tps == 0
    {
      lastTime := now;
      accumulator := 0;
      lastFPSTime := now;
      ticks := 0;
      frames := 0;
      fps := 0;
      tps := 0;
    }

    /** The inner loop of one pass: one DW_tick per whole MS_PER_TICK in
        the accumulator, counted in `ticks`. */
    method RunTicks() returns (ticksRun: nat)
      modifies this`accumulator, this`ticks
      ensures (ticksRun, accumulator as nat) == Drain(old(accumulator) as nat)
      ensures ticks == ToUInt32(old(ticks) + ticksRun)
      ensures accumulator < MS_PER_TICK
    {
      ticksRun := 0;
      while accumulator >= MS_PER_TICK
        invariant Drain(old(accumulator) as nat) == (ticksRun + Drain(accumulator).0, Drain(accumulator).1)
        invariant ticks == ToUInt32(old(ticks) + ticksRun)
        decreases accumulator
      {
        ticks := ToUInt32(ticks + 1);
        ticksRun := ticksRun + 1;
        accumulator := accumulator - MS_PER_TICK;
      }
    }

    /** One pass of the game loop at time `currentTime`, leaving out the
        rendering; `ticksRun` is the number of DW_tick calls made. */
    method Frame(currentTime: uint64) returns (ticksRun: nat)
      requires Valid()
      modifies this
      ensures Valid()
      ensures lastTime == currentTime
      ensures (ticksRun, accumulator as nat) == Drain(old(accumulator) + ClampedDelta(currentTime, old(lastTime)))
      ensures FpsDue(currentTime, old(lastFPSTime)) ==>
        && fps == ToUInt32(old(frames) + 1) && tps == ToUInt32(old(ticks) + ticksRun)
        && frames == 0 && ticks == 0 && lastFPSTime == currentTime
      ensures !FpsDue(currentTime, old(lastFPSTime)) ==>
        && fps == old(fps) && tps == old(tps)
        && frames == ToUInt32(old(frames) + 1) && ticks == ToUInt32(old(ticks) + ticksRun)
        && lastFPSTime == old(lastFPSTime)
    {
      var deltaTime := Elapsed(currentTime, lastTime);
      ghost var capped := ClampedDelta(currentTime, lastTime);
      lastTime := currentTime;
      if deltaTime > MAX_DELTA_TIME {
        deltaTime := MAX_DELTA_TIME;
      }
      accumulator := accumulator + deltaTime;
      assert accumulator == old(accumulator) + capped;

      ticksRun := RunTicks();

      frames := ToUInt32(frames + 1);

      if Elapsed(currentTime, lastFPSTime) >= FPS_INTERVAL {
        fps := frames;
        tps := ticks;
        frames := 0;
        ticks := 0;
        lastFPSTime := currentTime;
      }
    }
  }
}
