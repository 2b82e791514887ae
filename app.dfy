/**
 * The class Planetoids of app.py: the state machine that starts the game,
 * shows the welcome screen, loads a wave, runs it frame by frame, pauses it
 * when the ship is lost and ends it when the wave is cleared or the last life
 * is gone. Labels and drawing are not modelled; what is kept is the state,
 * the paused and sound flags, the wave and the two life counters.
 */
module Game {
  import opened Options
  import opened Constants
  import opened Geometry
  import opened Models
  import opened WaveRules
  import opened Waves

  datatype State = Inactive | Welcome | Loading | Active | Paused | Continue | Complete

  /** The fields the key presses act on. */
  datatype Control = Control(state: State, paused: bool, sound: bool)

  /**
   * The key handling at the start of update: 's' wakes an inactive game into
   * Welcome, resumes a paused one (Continue), or starts loading from Welcome;
   * then 'n' toggles the sound while the state is Welcome.
   */
  function Keyed(k: Control, s: bool, n: bool): (r: Control)
    ensures r.state == Welcome ==> k.state == Inactive || k.state == Welcome
    ensures s && k.state == Welcome && !k.paused ==> r.state == Loading
    ensures s && k.state != Inactive && k.paused ==> r.state == Continue
    ensures r.state == Loading ==> k.state == Loading || (s && k.state == Welcome)
    ensures r.state == Continue ==> k.state == Continue || (s && k.paused)
    ensures r.state == Active ==> k.state == Active
    ensures r.paused <==> k.paused && !(s && k.state != Inactive)
    ensures r.sound != k.sound <==> n && r.state == Welcome
    ensures k.state == Complete && !k.paused ==> r == k
    ensures !s ==> r.state == k.state
  {
    var k1 :=
      if !s then k
      else if k.state == Inactive then k.(state := Welcome)
      else if k.paused then k.(state := Continue, paused := false)
      else if k.state == Welcome then k.(state := Loading)
      else k;
    if n && k1.state == Welcome then k1.(sound := !k1.sound) else k1
  }

  class Planetoids {
    const c: Consts
    const m: MathLib
    const sm: ShipMethods
    const level: Level        // the level file DEFAULT_WAVE
    var state: State          // _state
    var wave: Wave?           // _wave
    var paused: bool          // _paused
    var sound: bool           // _sound
    var lives: int            // _lives
    var livesUfo: int         // _livesUFO

    /**
     * Between frames: Loading and Continue never last; paused is set exactly
     * in Paused; there is a wave exactly in Active and Paused, and then it is
     * a well-formed wave of this level with a ship and as many lives as the
     * game counts, at least one; before a wave is loaded the game counts full
     * lives.
     */
    ghost predicate Valid()
      reads this, wave
    {
      && c.Valid() && m.Valid() && sm.Valid()
      && state != Loading && state != Continue
      && (paused <==> state == Paused)
      && (wave != null <==> state == Active || state == Paused)
      && (wave != null ==> Running())
      && (state == Inactive || state == Welcome ==> lives == c.shipLives)
    }

    /** A well-formed wave of this level, with a ship and as many lives as the game counts, at least one. */
    ghost predicate Running()
      reads this, wave
    {
      && wave != null
      && wave.Valid() && wave.c == c && wave.m == m && wave.sm == sm && wave.data == level
      && wave.ship.Some? && wave.lives == lives && lives >= 1
    }

    /** start: inactive, no wave, not paused, sound on, full lives for the ship and the UFO. */
    constructor Start(c: Consts, m: MathLib, sm: ShipMethods, level: Level)
      requires c.Valid() && m.Valid() && sm.Valid()
      ensures this.c == c && this.m == m && this.sm == sm && this.level == level
      ensures state == Inactive && wave == null && !paused && sound
      ensures lives == c.shipLives && livesUfo == c.ufoLives
      ensures Valid()
    {
      this.c, this.m, this.sm, this.level := c, m, sm, level;
      state := Inactive;
      wave := null;
      paused := false;
      sound := true;
      lives := c.shipLives;
      livesUfo := c.ufoLives;
    }

    /** The control fields as one value. */
    function Controls(): Control
      reads this
    {
      Control(state, paused, sound)
    }

    /** The key handling at the start of update (see Keyed). */
    method HandleKeys(s: bool, n: bool)
      modifies this`state, this`paused, this`sound
      ensures Controls() == Keyed(old(Controls()), s, n)
    {
      if s {
        if state == Inactive {
          state := Welcome;
        } else if paused {
          state := Continue;
          paused := false;
        } else if state == Welcome {
          WelcomeState();
        }
      }
      if n && state == Welcome {
        sound := !sound;
      }
    }

    /** welcome_state: the welcome screen gives way to loading. */
    method WelcomeState()
      modifies this`state
      ensures state == Loading
    {
      state := Loading;
    }

    /** inactive_ast: the wave is cleared; the game is complete. */
    method InactiveAst()
      modifies this`state, this`wave
      ensures state == Complete && wave == null
    {
      state := Complete;
      wave := null;
    }

    /**
     * inactive_ship: with at most one life counted the game is over;
     * otherwise the game takes the wave's lives, pauses, and the wave gets a
     * fresh ship from its level.
     */
    method InactiveShip()
      requires wave != null
      modifies this`state, this`wave, this`lives, this`paused, wave`ship
      ensures old(lives) <= 1 ==> state == Complete && wave == null && lives == old(lives) && paused == old(paused)
      ensures old(lives) > 1 ==>
        && state == Paused && paused && wave == old(wave) && lives == wave.lives
        && wave.ship == Some(NewShip(wave.sm, wave.data))
    {
      if lives <= 1 {
        state := Complete;
        wave := null;
      } else {
        lives := wave.lives;
        state := Paused;
        paused := true;
        wave.ship := Some(NewShip(wave.sm, wave.data));
      }
    }

    /** The counters draw copies from the wave: given the invariant, the game's own count does not change. */
    method SyncCounters()
      requires Valid()
      modifies this`lives, this`livesUfo
      ensures lives == old(lives) && Valid()
      ensures wave != null ==> livesUfo == wave.ufoLives
      ensures wave == null ==> livesUfo == old(livesUfo)
    {
      if wave != null {
        lives := wave.lives;
        livesUfo := wave.ufoLives;
      }
    }

    /**
     * update: the keys first; then nothing more in Complete and Paused (nor
     * in Inactive and Welcome, which have no wave); Continue resumes the
     * paused wave and Loading creates a new wave of the level, both becoming
     * Active; the wave runs one frame; then a cleared wave (no asteroid and no
     * UFO) completes the game, and a lost ship either ends the game, when the
     * game counts at most one life, or pauses it with one life less and a new
     * ship. ok is false exactly when the wave's frame raises.
     */
    method Update(s: bool, n: bool, keys: Keys, draw: UfoDraw) returns (ok: bool)
      requires Valid() && (level.ufo.Some? ==> draw.Valid(c))
      modifies this, wave
      ensures var k := Keyed(old(Controls()), s, n);
        k.state !in {Loading, Continue, Active} ==>
          ok && Controls() == k && wave == old(wave) && lives == old(lives)
          && (wave != null ==> unchanged(wave))
      ensures var k := Keyed(old(Controls()), s, n);
        k.state == Loading ==>
          var s0 := Initial(c, m, sm, level, draw);
          && sound == k.sound
          && (ok <==> Step(c, m, sm, s0, keys).Some?)
          && (ok ==> Frame(old(lives), Step(c, m, sm, s0, keys).value))
          && (ok && wave != null ==> fresh(wave))
      ensures var k := Keyed(old(Controls()), s, n);
        k.state in {Continue, Active} ==>
          var s0 := old(wave.View());
          && sound == k.sound
          && (ok <==> Step(c, m, sm, s0, keys).Some?)
          && (ok ==> Frame(old(lives), Step(c, m, sm, s0, keys).value))
          && (ok && wave != null ==> wave == old(wave))
      ensures ok ==> Valid()
    {
      HandleKeys(s, n);
      ok := Dispatch(keys, draw);
    }

    /**
     * The state between the key handling and the rest of update: Valid, except
     * that the state may be Loading (from Welcome, with full lives and no
     * wave) or Continue (from Paused, with its wave, no longer paused).
     */
    ghost predicate AfterKeys()
      reads this, wave
    {
      && c.Valid() && m.Valid() && sm.Valid()
      && (paused <==> state == Paused)
      && (wave != null <==> state == Active || state == Paused || state == Continue)
      && (wave != null ==> Running())
      && (state == Inactive || state == Welcome || state == Loading ==> lives == c.shipLives)
    }

    /** The rest of update once the keys are handled. */
    method Dispatch(keys: Keys, draw: UfoDraw) returns (ok: bool)
      requires AfterKeys() && (level.ufo.Some? ==> draw.Valid(c))
      modifies this, wave
      ensures old(state) !in {Loading, Continue, Active} ==>
        ok && Controls() == old(Controls()) && wave == old(wave) && lives == old(lives)
        && (wave != null ==> unchanged(wave))
      ensures old(state) == Loading ==>
        var s0 := Initial(c, m, sm, level, draw);
        && (ok <==> Step(c, m, sm, s0, keys).Some?)
        && (ok ==> Frame(old(lives), Step(c, m, sm, s0, keys).value))
        && (ok && wave != null ==> fresh(wave))
      ensures old(state) in {Continue, Active} ==>
        var s0 := old(wave.View());
        && (ok <==> Step(c, m, sm, s0, keys).Some?)
        && (ok ==> Frame(old(lives), Step(c, m, sm, s0, keys).value))
        && (ok && wave != null ==> wave == old(wave))
      ensures sound == old(sound)
      ensures ok ==> Valid()
    {
      if state == Complete || state == Paused {
        return true;
      }
      if state == Inactive || state == Welcome {
        return true;
      }
      if state == Loading {
        ok := LoadWave(keys, draw);
      } else {
        ok := ResumeWave(keys);
      }
    }

    /** Continue and Active: the game is Active and its wave runs one frame. */
    method ResumeWave(keys: Keys) returns (ok: bool)
      requires c.Valid() && m.Valid() && sm.Valid() && (state == Continue || state == Active) && !paused
      requires Running()
      modifies this`state, this`wave, this`lives, this`paused, wave
      ensures ok <==> Step(c, m, sm, old(wave.View()), keys).Some?
      ensures ok ==> Frame(old(lives), Step(c, m, sm, old(wave.View()), keys).value) && Valid()
      ensures ok && wave != null ==> wave == old(wave)
    {
      state := Active;
      ok := RunWave(keys);
    }

    /** Loading: a new wave of the level is created, the game becomes Active and the wave runs its first frame. */
    method LoadWave(keys: Keys, draw: UfoDraw) returns (ok: bool)
      requires c.Valid() && m.Valid() && sm.Valid() && (level.ufo.Some? ==> draw.Valid(c))
      requires state == Loading && !paused && lives == c.shipLives
      modifies this`state, this`wave, this`lives, this`paused
      ensures var s0 := Initial(c, m, sm, level, draw);
        && (ok <==> Step(c, m, sm, s0, keys).Some?)
        && (ok ==> Frame(old(lives), Step(c, m, sm, s0, keys).value) && Valid())
      ensures ok && wave != null ==> fresh(wave)
    {
      wave := new Wave(c, m, sm, level, draw);
      state := Active;
      InitialFacts(c, m, sm, level, draw);
      ok := RunWave(keys);
    }

    /**
     * One frame of the active wave, then inactive_ast when it is cleared or
     * inactive_ship when its ship is lost.
     */
    method RunWave(keys: Keys) returns (ok: bool)
      requires c.Valid() && m.Valid() && sm.Valid() && state == Active && !paused
      requires Running()
      modifies this`state, this`wave, this`lives, this`paused, wave
      ensures ok <==> Step(c, m, sm, old(wave.View()), keys).Some?
      ensures ok ==> Frame(old(lives), Step(c, m, sm, old(wave.View()), keys).value) && Valid()
      ensures ok && wave != null ==> wave == old(wave) && wave.sound == sound
    {
      ghost var s0 := wave.View();
      ok := wave.Update(keys, sound);
      if !ok {
        return;
      }
      StepFacts(c, m, sm, s0, keys);
      Settle(lives, wave.View());
    }

    /**
     * The checks after the wave's frame, which ended in snapshot r: inactive_ast
     * when it is cleared, inactive_ship when its ship is lost.
     */
    method Settle(ghost lives0: int, ghost r: Snapshot)
      requires c.Valid() && m.Valid() && sm.Valid() && state == Active && !paused
      requires wave != null && wave.Valid() && wave.c == c && wave.m == m && wave.sm == sm && wave.data == level
      requires wave.View() == r && lives == lives0 >= 1
      requires r.ship.Some? ==> r.lives == lives0
      requires r.ship.None? ==> r.lives == lives0 - 1
      modifies this`state, this`wave, this`lives, this`paused, wave`ship
      ensures Frame(lives0, r) && Valid()
      ensures wave != null ==> wave == old(wave) && wave.sound == old(wave.sound)
    {
      if !wave.CheckAsteroids() && !wave.CheckUfo() {
        InactiveAst();
      } else if !wave.CheckShip() {
        InactiveShip();
      }
    }

    /**
     * What one frame of the wave, ending in snapshot r, leaves of the game
     * that counted lives0 lives: complete when r holds neither asteroid nor
     * UFO; complete as well when the ship is lost with lives0 at most one;
     * paused with the wave's (one less) lives and a new ship when it is lost
     * with more; otherwise active with the wave at r.
     */
    ghost predicate Frame(lives0: int, r: Snapshot)
      reads this, wave
    {
      if r.asteroids == [] && r.ufo.None? then
        state == Complete && wave == null && lives == lives0
      else if r.ship.None? && lives0 <= 1 then
        state == Complete && wave == null && lives == lives0
      else if r.ship.None? then
        && state == Paused && wave != null && lives == r.lives
        && wave.View() == r.(ship := Some(NewShip(sm, level)))
      else
        state == Active && wave != null && wave.View() == r && lives == lives0
    }
  }
}
