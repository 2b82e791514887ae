/**
 * The class Wave of wave.py: the controller of one level. It owns the ship
 * slot, the asteroids, the bullets, the optional UFO with its life markers,
 * and the counters. Each method is proved to do to View() what the functions
 * of WaveRules say; the properties of the game are proved there.
 */
module Waves {
  import opened Options
  import opened Geometry
  import opened Constants
  import opened Models
  import opened WaveRules

  class Wave {
    const c: Consts
    const m: MathLib
    const sm: ShipMethods
    const data: Level              // _data
    var ship: Option<Ship>         // _ship
    var asteroids: seq<Asteroid>   // _asteroids
    var bullets: seq<Bullet>       // _bullets
    var lives: int                 // _lives
    var fireRate: int              // _firerate
    var sound: bool                // _sound
    var ufo: Option<Ufo>           // _UFO
    var ufoLives: int              // _UFOlives
    var markers: seq<Marker>       // _ufolivesimage

    /** The part of the wave a frame changes. */
    function View(): Snapshot
      reads this
    {
      Snapshot(ship, asteroids, bullets, ufo, markers, lives, ufoLives, fireRate)
    }

    ghost predicate Valid()
      reads this
    {
      c.Valid() && m.Valid() && sm.Valid() && WellFormed(View())
    }

    /** __init__: the ship, the asteroids, the UFO and its markers from the level; no bullets, full lives, sound on. */
    constructor (c: Consts, m: MathLib, sm: ShipMethods, data: Level, draw: UfoDraw)
      requires c.Valid() && m.Valid() && sm.Valid() && (data.ufo.Some? ==> draw.Valid(c))
      ensures this.c == c && this.m == m && this.sm == sm && this.data == data
      ensures View() == Initial(c, m, sm, data, draw) && sound
      ensures Valid()
    {
      this.c, this.m, this.sm, this.data := c, m, sm, data;
      new;
      ship := Some(NewShip(sm, data));
      LoadAsteroids();
      bullets := [];
      fireRate := 0;
      lives := c.shipLives;
      sound := true;
      ufo := NewUfoFor(draw);
      ufoLives := c.ufoLives;
      markers := [];
      AlienLivesImage();
    }

    /** The loop of __init__ that creates one asteroid per entry of the level, in order. */
    method LoadAsteroids()
      requires c.Valid() && m.Valid()
      modifies this`asteroids
      ensures asteroids == LevelAsteroids(c, m, data)
    {
      asteroids := [];
      var i := 0;
      while i < |data.asteroids|
        invariant 0 <= i <= |data.asteroids|
        invariant asteroids == LevelAsteroids(c, m, data)[..i]
      {
        var e := data.asteroids[i];
        asteroids := asteroids + [NewAsteroid(c, m, e.x, e.y, e.size, data.asteroids[0].direction)];
        i := i + 1;
      }
    }

    /** new_UFO: the UFO the level asks for, placed and aimed by the random draws. */
    method NewUfoFor(draw: UfoDraw) returns (u: Option<Ufo>)
      requires c.Valid() && m.Valid() && (data.ufo.Some? ==> draw.Valid(c))
      ensures u == LevelUfo(c, m, data, draw)
      ensures u.Some? <==> data.ufo.Some?
      ensures u.Some? ==> u.value.alien == data.ufo.value && u.value.x == draw.x as real && u.value.y == draw.y as real
    {
      if data.ufo.Some? {
        var alien := data.ufo.value;
        u := Some(NewUfo(c, m, draw.x as real, draw.y as real, alien, draw.dx, draw.dy));
      } else {
        u := None;
      }
    }

    /** alienLives_image: with a UFO, one marker per UFO life in a row below it; without one, nothing. */
    method AlienLivesImage()
      requires c.Valid()
      modifies this`markers
      ensures markers == old(markers) + LifeMarkers(c, ufo)
    {
      if ufo.Some? {
        var u := ufo.value;
        var i := 0;
        while i < c.ufoLives
          invariant 0 <= i <= c.ufoLives
          invariant markers == old(markers) + LifeMarkers(c, ufo)[..i]
        {
          markers := markers + [LifeMarker(c, u, i)];
          i := i + 1;
        }
      }
    }

    /** checkAsteroids: false exactly when no asteroid is left. */
    function CheckAsteroids(): (r: bool)
      reads this
      ensures r <==> |asteroids| > 0
    {
      asteroids != []
    }

    /** checkShip: false exactly when the ship is gone. */
    function CheckShip(): (r: bool)
      reads this
      ensures r <==> ship.Some?
    {
      ship != None
    }

    /** checkUFO: false exactly when there is no UFO. */
    function CheckUfo(): (r: bool)
      reads this
      ensures r <==> ufo.Some?
    {
      ufo != None
    }

    /** shoot_bullet: the frame-count gate and the new bullet at the ship's tip. */
    method ShootBullet(x: real, y: real, facing: Vec, rate: int)
      requires c.Valid()
      modifies this`bullets, this`fireRate
      ensures View() == Shoot(c, old(View()), x, y, facing, rate)
    {
      if fireRate >= rate {
        fireRate := 0;
        var b := NewBullet(c, x, y, facing);
        bullets := bullets + [b];
      }
    }

    /**
     * breaking_asteroids: the pieces of the parent, along the normalized
     * reference and its turns by 120 and 240 degrees, are appended; a small
     * parent adds nothing.
     */
    method BreakingAsteroids(parent: Asteroid, ref: Vec)
      requires m.Valid() && ref != Zero
      modifies this`asteroids
      ensures asteroids == old(asteroids) + Fragments(c, m, parent, ref)
    {
      var u := Normalize(m, ref);
      TurnsKeepUnit(m, u);
      UnitNonZero(Turn120(m, u));
      UnitNonZero(Turn240(m, u));
      var v1 := Normalize(m, Turn120(m, u));
      var v2 := Normalize(m, Turn240(m, u));
      var v3 := u;
      var size;
      if parent.size == Large {
        size := Medium;
      } else if parent.size == Medium {
        size := Small;
      } else {
        return;
      }
      asteroids := asteroids + [NewFragment(c, m, size, v1, parent.x, parent.y),
                                NewFragment(c, m, size, v2, parent.x, parent.y),
                                NewFragment(c, m, size, v3, parent.x, parent.y)];
    }

    /** The loop `for asteroid in self._asteroids` that stops at the first asteroid colliding with o. */
    method FindHit(o: Body) returns (r: Option<nat>)
      ensures r == FirstHit(c, m, asteroids, o)
    {
      var k := 0;
      while k < |asteroids|
        invariant 0 <= k <= |asteroids|
        invariant forall j :: 0 <= j < k ==> !AsteroidCollides(c, m, asteroids[j], o)
      {
        if AsteroidCollides(c, m, asteroids[k], o) {
          FirstHitAt(c, m, asteroids, o, k);
          return Some(k);
        }
        k := k + 1;
      }
      r := None;
    }

    /** The first half of bullet_update: with a ship, fire if the spacebar is down, then move every bullet. */
    method ArmBullets(keys: Keys)
      requires c.Valid()
      modifies this`bullets, this`fireRate
      ensures View() == Arm(c, old(View()), keys)
    {
      if ship.Some? {
        if keys.spacebar {
          ShootBullet(ship.value.x, ship.value.y, ship.value.facing, c.bulletRate);
        }
        MoveBulletsInPlace();
      }
    }

    /** The loop of bullet_update that moves every bullet by its velocity. */
    method MoveBulletsInPlace()
      modifies this`bullets
      ensures bullets == MoveBullets(old(bullets))
    {
      ghost var b0 := bullets;
      var i: nat := 0;
      var n := |bullets|;
      while i < n
        invariant n == |b0| && i <= n
        invariant bullets == MoveBullets(b0)[..i] + b0[i..]
      {
        ReplaceNext(MoveBullets(b0), b0, i);
        bullets := bullets[i := MoveBullet(bullets[i])];
        i := i + 1;
      }
      AllMoved(MoveBullets(b0), b0);
    }

    /**
     * bullet_update. After arming, the while loop walks the bullets with the
     * index i: a bullet out of the field is deleted; one that hits an asteroid
     * is removed with that asteroid, whose pieces are appended; one that hits
     * the UFO is removed, costs the UFO a life and, while that count is not
     * negative, the last marker. A bullet removed twice, or a marker deleted
     * from an empty list, raises: ok is then false.
     */
    method BulletUpdate(keys: Keys) returns (ok: bool)
      requires Valid()
      modifies this`bullets, this`fireRate, this`asteroids, this`ufoLives, this`markers
      ensures ok <==> BulletPhase(c, m, old(View()), keys).Some?
      ensures ok ==> View() == BulletPhase(c, m, old(View()), keys).value
    {
      ArmKeepsMoving(c, View(), keys);
      ArmBullets(keys);
      ghost var start := View();
      var i: nat := 0;
      while i < |bullets|
        invariant c.Valid() && m.Valid() && Moving(bullets)
        invariant Pass(c, m, View(), i) == Pass(c, m, start, 0)
        decreases |bullets| - i
      {
        var next;
        ok, next := BulletStep(i);
        if !ok {
          return;
        }
        i := next;
      }
      ok := true;
    }

    /**
     * One pass of the while loop of bullet_update, on the bullet at index i:
     * the index the loop goes on from, or false when the pass raises.
     */
    method BulletStep(i: nat) returns (ok: bool, next: nat)
      requires c.Valid() && m.Valid() && Moving(bullets) && i < |bullets|
      modifies this`bullets, this`asteroids, this`ufoLives, this`markers
      ensures Moving(bullets)
      ensures ok ==> |bullets| - next < |old(bullets)| - i && Pass(c, m, View(), next) == Pass(c, m, old(View()), i)
      ensures !ok ==> Pass(c, m, old(View()), i) == None
    {
      var b := bullets[i];
      if !InField(c, b) {
        PassCulled(c, m, View(), i);
        bullets := RemoveAt(bullets, i);
        return true, i;
      }
      ok, next := BulletCollisions(i);
    }

    /** The pass on a bullet inside the field: it may hit an asteroid, the UFO, both (which raises) or nothing. */
    method BulletCollisions(i: nat) returns (ok: bool, next: nat)
      requires c.Valid() && m.Valid() && Moving(bullets) && i < |bullets| && InField(c, bullets[i])
      modifies this`bullets, this`asteroids, this`ufoLives, this`markers
      ensures Moving(bullets)
      ensures ok ==> |bullets| - next < |old(bullets)| - i && Pass(c, m, View(), next) == Pass(c, m, old(View()), i)
      ensures !ok ==> Pass(c, m, old(View()), i) == None
    {
      var b := bullets[i];
      var hit := FindHit(BulletBody(b.x, b.y));
      if hit.Some? {
        ok := BulletAsteroid(i, hit.value);
        next := i;
      } else {
        ok, next := BulletUfo(i);
      }
    }

    /** The bullet hit asteroid k first; it raises when it also overlaps the UFO. */
    method BulletAsteroid(i: nat, k: nat) returns (ok: bool)
      requires c.Valid() && m.Valid() && Moving(bullets) && i < |bullets| && InField(c, bullets[i])
      requires FirstHit(c, m, asteroids, BulletBody(bullets[i].x, bullets[i].y)) == Some(k)
      modifies this`bullets, this`asteroids
      ensures Moving(bullets) && |bullets| < |old(bullets)|
      ensures ok ==> Pass(c, m, View(), i) == Pass(c, m, old(View()), i)
      ensures !ok ==> Pass(c, m, old(View()), i) == None
    {
      ghost var s := View();
      var b := bullets[i];
      RemoveKeepsMoving(bullets, i);
      PassHitsAsteroid(c, m, s, i, k);
      ok := !(ufo.Some? && UfoCollides(c, m, ufo.value, BulletBody(b.x, b.y)));
      BulletHitsAsteroid(i, k);
    }

    /** The bullet hit no asteroid: it may hit the UFO, or nothing, and then the index moves on. */
    method BulletUfo(i: nat) returns (ok: bool, next: nat)
      requires c.Valid() && m.Valid() && Moving(bullets) && i < |bullets| && InField(c, bullets[i])
      requires FirstHit(c, m, asteroids, BulletBody(bullets[i].x, bullets[i].y)).None?
      modifies this`bullets, this`ufoLives, this`markers
      ensures Moving(bullets)
      ensures ok ==> |bullets| - next < |old(bullets)| - i && Pass(c, m, View(), next) == Pass(c, m, old(View()), i)
      ensures !ok ==> Pass(c, m, old(View()), i) == None
    {
      var b := bullets[i];
      if ufo.Some? && UfoCollides(c, m, ufo.value, BulletBody(b.x, b.y)) {
        ok := BulletShootsUfo(i);
        return ok, i;
      }
      PassMisses(c, m, View(), i);
      return true, i + 1;
    }

    /** Bullet i hit no asteroid but the UFO: the pass goes on from the same index without it. */
    method BulletShootsUfo(i: nat) returns (ok: bool)
      requires m.Valid() && Moving(bullets) && i < |bullets| && InField(c, bullets[i])
      requires FirstHit(c, m, asteroids, BulletBody(bullets[i].x, bullets[i].y)).None?
      requires ufo.Some? && UfoCollides(c, m, ufo.value, BulletBody(bullets[i].x, bullets[i].y))
      modifies this`bullets, this`ufoLives, this`markers
      ensures Moving(bullets) && |bullets| < |old(bullets)|
      ensures ok ==> Pass(c, m, View(), i) == Pass(c, m, old(View()), i)
      ensures !ok ==> Pass(c, m, old(View()), i) == None
    {
      RemoveKeepsMoving(bullets, i);
      PassHitsUfo(c, m, View(), i);
      ok := BulletHitsUfo(i);
    }

    /** Bullet i hit asteroid k: the asteroid is removed, then the bullet, then the asteroid's pieces are appended. */
    method BulletHitsAsteroid(i: nat, k: nat)
      requires m.Valid() && Moving(bullets) && i < |bullets| && k < |asteroids|
      modifies this`bullets, this`asteroids
      ensures asteroids == RemoveAt(old(asteroids), k) + Fragments(c, m, old(asteroids)[k], old(bullets)[i].vel)
      ensures bullets == RemoveAt(old(bullets), i)
    {
      var b := bullets[i];
      var parent := asteroids[k];
      assert b in bullets;
      asteroids := RemoveAt(asteroids, k);
      bullets := RemoveAt(bullets, i);
      BreakingAsteroids(parent, b.vel);
    }

    /**
     * Bullet i hit the UFO: the bullet is removed and the UFO loses a life;
     * while its lives are not negative the last marker is deleted, which
     * raises (false) when there is none.
     */
    method BulletHitsUfo(i: nat) returns (ok: bool)
      requires i < |bullets|
      modifies this`bullets, this`ufoLives, this`markers
      ensures ok <==> !(old(ufoLives) - 1 >= 0 && |old(markers)| == 0)
      ensures bullets == RemoveAt(old(bullets), i) && ufoLives == old(ufoLives) - 1
      ensures ok ==> View() == old(View()).(bullets := RemoveAt(old(bullets), i), ufoLives := old(ufoLives) - 1,
                                            markers := if old(ufoLives) - 1 >= 0 then old(markers)[..|old(markers)| - 1] else old(markers))
    {
      bullets := RemoveAt(bullets, i);
      ufoLives := ufoLives - 1;
      if ufoLives >= 0 {
        if |markers| == 0 {
          return false;
        }
        markers := markers[..|markers| - 1];
      }
      return true;
    }

    /** update_UFOLives: the first ufoLives markers move with the UFO; indexing past the list raises. */
    method UpdateUfoLives() returns (ok: bool)
      requires c.Valid() && ufo.Some?
      modifies this`markers
      ensures ok <==> MoveMarkers(c, old(markers), ufo.value.vel, ufoLives).Some?
      ensures ok ==> markers == MoveMarkers(c, old(markers), ufo.value.vel, ufoLives).value
    {
      var vel := ufo.value.vel;
      var i := 0;
      while i < ufoLives
        invariant 0 <= i && (i <= ufoLives || i == 0) && i <= |markers|
        invariant |markers| == |old(markers)|
        invariant forall j :: 0 <= j < |markers| ==>
          markers[j] == if j < i then MoveMarker(c, old(markers)[j], vel) else old(markers)[j]
      {
        if i >= |markers| {
          return false;
        }
        markers := markers[i := MoveMarker(c, markers[i], vel)];
        i := i + 1;
      }
      ok := true;
    }

    /**
     * update: one frame. The fire counter goes up and the sound flag is
     * copied. With a ship, it steers and moves, then each asteroid in turn
     * moves and is checked against it; the first that hits costs a life, is
     * broken and removed, the ship is gone and the frame ends. A UFO that hits
     * the ship costs a life and a UFO life and ends the frame too. Otherwise
     * the bullets take their turn, then the UFO and its markers move, and the
     * UFO is gone once it has no lives left. ok is false when the frame raises.
     */
    method Update(keys: Keys, sound: bool) returns (ok: bool)
      requires Valid()
      modifies this
      ensures this.sound == sound
      ensures ok <==> Step(c, m, sm, old(View()), keys).Some?
      ensures ok ==> View() == Step(c, m, sm, old(View()), keys).value && Valid()
    {
      ghost var s0 := View();
      fireRate := fireRate + 1;
      this.sound := sound;
      StepOf(c, m, sm, s0, View(), keys);
      if ship.None? {
        ok := RestOfFrame(keys);
      } else {
        var ended := ShipTurn(keys);
        if ended {
          ok := true;
        } else {
          ok := RestOfFrame(keys);
        }
      }
      if ok {
        StepKeepsWellFormed(c, m, sm, s0, keys);
      }
    }

    /** bullet_update, then the UFO's part of update (see Rest). */
    method RestOfFrame(keys: Keys) returns (ok: bool)
      requires Valid()
      modifies this`bullets, this`fireRate, this`asteroids, this`ufoLives, this`markers, this`ufo
      ensures ok <==> Rest(c, m, old(View()), keys).Some?
      ensures ok ==> View() == Rest(c, m, old(View()), keys).value
    {
      ok := BulletUpdate(keys);
      if ok {
        ok := UfoTurn();
      }
    }

    /** The ship's part of update (see ShipPhase); ended is true when a collision ends the frame. */
    method ShipTurn(keys: Keys) returns (ended: bool)
      requires Valid() && ship.Some?
      modifies this`ship, this`asteroids, this`lives, this`ufoLives
      ensures (ended, View()) == ShipPhase(c, m, sm, old(View()), keys)
    {
      ghost var s := View();
      SteerShip(keys);
      var sh := ship.value;
      var hit := MoveAsteroidsUntilHit(ShipBody(sh.x, sh.y));
      if hit.Some? {
        ShipHitsAsteroid(hit.value, s, keys);
        ended := true;
      } else {
        ended := ShipMissesAsteroids(s, keys);
      }
    }

    /** The wave's fields are those of s, but for the ship, which has steered and moved. */
    ghost predicate SteeredFrom(s: Snapshot, keys: Keys)
      requires s.ship.Some?
      reads this
    {
      && ship == Some(MoveShip(sm, Steer(sm, s.ship.value, keys)))
      && bullets == s.bullets && ufo == s.ufo && markers == s.markers
      && lives == s.lives && ufoLives == s.ufoLives && fireRate == s.fireRate
    }

    /** The moved asteroid k was the first to hit the ship: the frame ends with the crash. */
    method ShipHitsAsteroid(k: nat, ghost s: Snapshot, keys: Keys)
      requires c.Valid() && m.Valid() && sm.Valid() && WellFormed(s) && s.ship.Some? && SteeredFrom(s, keys)
      requires FirstHit(c, m, MoveAll(c, s.asteroids), ShipBody(ship.value.x, ship.value.y)) == Some(k)
      requires asteroids == MoveAll(c, s.asteroids)[..k + 1] + s.asteroids[k + 1..]
      modifies this`ship, this`asteroids, this`lives
      ensures (true, View()) == ShipPhase(c, m, sm, s, keys)
    {
      ShipPhaseHit(c, m, sm, s, keys, k);
      RemoveMoved(MoveAll(c, s.asteroids), s.asteroids, k);
      ShipCrash(k);
    }

    /** No asteroid hit the ship: the UFO may still hit it, which ends the frame. */
    method ShipMissesAsteroids(ghost s: Snapshot, keys: Keys) returns (ended: bool)
      requires c.Valid() && m.Valid() && sm.Valid() && WellFormed(s) && s.ship.Some? && SteeredFrom(s, keys)
      requires FirstHit(c, m, MoveAll(c, s.asteroids), ShipBody(ship.value.x, ship.value.y)).None?
      requires asteroids == MoveAll(c, s.asteroids)
      modifies this`ship, this`lives, this`ufoLives
      ensures (ended, View()) == ShipPhase(c, m, sm, s, keys)
    {
      ShipPhaseMiss(c, m, sm, s, keys);
      var sh := ship.value;
      if ufo.Some? && UfoCollides(c, m, ufo.value, ShipBody(sh.x, sh.y)) {
        lives := lives - 1;
        ship := None;
        ufoLives := ufoLives - 1;
        return true;
      }
      return false;
    }

    /** The ship turns, thrusts, moves by its velocity and wraps. */
    method SteerShip(keys: Keys)
      requires sm.Valid() && ship.Some? && IsUnit(ship.value.facing)
      modifies this`ship
      ensures ship == Some(MoveShip(sm, Steer(sm, old(ship).value, keys))) && IsUnit(ship.value.facing)
    {
      var sh := ship.value;
      ShipStepKeepsUnit(sm, sh, keys);
      if keys.left {
        sh := sm.turnLeft(sh);
      }
      if keys.right {
        sh := sm.turnRight(sh);
      }
      if keys.up {
        sh := sm.applyThrust(sh);
      }
      sh := sm.wrap(Ship(sh.x + sh.vel.x, sh.y + sh.vel.y, sh.vel, sh.facing));
      ship := Some(sh);
    }

    /**
     * The asteroid at index k hits the ship: a life is lost, the asteroid's
     * pieces are appended along the ship's reference direction, the asteroid
     * is removed and the ship is gone.
     */
    method ShipCrash(k: nat)
      requires m.Valid() && ship.Some? && IsUnit(ship.value.facing) && k < |asteroids|
      modifies this`ship, this`asteroids, this`lives
      ensures ship == None && lives == old(lives) - 1
      ensures asteroids == RemoveAt(old(asteroids), k) + Fragments(c, m, old(asteroids)[k], ShipReference(old(ship).value))
    {
      var sh := ship.value;
      var ast := asteroids[k];
      lives := lives - 1;
      UnitNonZero(sh.facing);
      BreakingAsteroids(ast, ShipReference(sh));
      RemoveAtParts(old(asteroids), k, Fragments(c, m, ast, ShipReference(sh)));
      asteroids := RemoveAt(asteroids, k);
      ship := None;
    }

    /**
     * The loop of update over the asteroids: each moves and wraps, then is
     * checked against o; the loop stops at the first that collides, leaving
     * the ones after it where they were.
     */
    method MoveAsteroidsUntilHit(o: Body) returns (hit: Option<nat>)
      modifies this`asteroids
      ensures hit == FirstHit(c, m, MoveAll(c, old(asteroids)), o)
      ensures hit.None? ==> asteroids == MoveAll(c, old(asteroids))
      ensures hit.Some? ==> asteroids == MoveAll(c, old(asteroids))[..hit.value + 1] + old(asteroids)[hit.value + 1..]
    {
      ghost var a0 := asteroids;
      var i: nat := 0;
      var n := |asteroids|;
      while i < n
        invariant n == |a0| && i <= n
        invariant asteroids == MoveAll(c, a0)[..i] + a0[i..]
        invariant FirstHit(c, m, MoveAll(c, a0)[..i], o).None?
      {
        var collides := MoveOne(i, a0, o);
        if collides {
          HitAfterClear(c, m, MoveAll(c, a0), o, i);
          return Some(i);
        }
        ClearOneMore(c, m, MoveAll(c, a0), o, i);
        i := i + 1;
      }
      AllMoved(MoveAll(c, a0), a0);
      hit := None;
    }

    /** One pass of that loop: asteroid i moves and wraps, in place, and is checked against o. */
    method MoveOne(i: nat, ghost a0: seq<Asteroid>, o: Body) returns (collides: bool)
      requires i < |a0| && asteroids == MoveAll(c, a0)[..i] + a0[i..]
      modifies this`asteroids
      ensures collides == AsteroidCollides(c, m, MoveAll(c, a0)[i], o)
      ensures asteroids == MoveAll(c, a0)[..i + 1] + a0[i + 1..]
    {
      var ast := MoveAsteroid(c, asteroids[i]);
      MovedOneMore(c, a0, i);
      asteroids := asteroids[i := ast];
      collides := AsteroidCollides(c, m, ast, o);
    }

    /** The end of update: the UFO moves, its markers follow, and it is gone once it has no lives left. */
    method UfoTurn() returns (ok: bool)
      requires c.Valid()
      modifies this`ufo, this`markers
      ensures ok <==> UfoPhase(c, old(View())).Some?
      ensures ok ==> View() == UfoPhase(c, old(View())).value
    {
      if ufo.Some? {
        ufo := Some(UpdateUfo(c, ufo.value));
        ok := UpdateUfoLives();
        if !ok {
          return;
        }
        if ufoLives < 1 {
          ufo := None;
        }
      }
      ok := true;
    }
  }
}
