/**
 * The rules of one wave as functions on a snapshot of its state: what one
 * frame of Wave.update does to the ship, the asteroids, the bullets, the UFO,
 * its life markers and the counters. The class Waves.Wave is proved to follow
 * these rules; the properties of the game are proved here about them.
 */
module WaveRules {
  import opened Options
  import opened Geometry
  import opened Constants
  import opened Models

  /** One asteroid entry of a level file: size tag, position and direction. */
  datatype AsteroidSpec = AsteroidSpec(size: Size, x: real, y: real, direction: Vec)

  /** The ship entry of a level file: position and angle in degrees. */
  datatype ShipSpec = ShipSpec(x: real, y: real, angle: real)

  /** A level file: the ship, the asteroids and, when there is a UFO, whether it carries an alien. */
  datatype Level = Level(ship: ShipSpec, asteroids: seq<AsteroidSpec>, ufo: Option<bool>)

  /** The keys held down during one frame. */
  datatype Keys = Keys(left: bool, right: bool, up: bool, spacebar: bool)

  /**
   * The random draws for a new UFO: randrange(GAME_WIDTH), randrange(GAME_HEIGHT)
   * and two values of random(), which are never both zero here.
   */
  datatype UfoDraw = UfoDraw(x: int, y: int, dx: real, dy: real)
  {
    predicate Valid(c: Consts)
    {
      && 0 <= x < c.gameWidth && 0 <= y < c.gameHeight
      && 0.0 <= dx < 1.0 && 0.0 <= dy < 1.0 && (dx != 0.0 || dy != 0.0)
    }
  }

  /** The state of a wave that a frame changes. */
  datatype Snapshot = Snapshot(
    ship: Option<Ship>,
    asteroids: seq<Asteroid>,
    bullets: seq<Bullet>,
    ufo: Option<Ufo>,
    markers: seq<Marker>,
    lives: int,
    ufoLives: int,
    fireRate: int)

  /**
   * What every reachable wave satisfies: the ship faces along a unit vector,
   * no bullet stands still, and while there is a UFO there is a marker for
   * each of its remaining lives.
   */
  predicate WellFormed(s: Snapshot)
  {
    && (s.ship.Some? ==> IsUnit(s.ship.value.facing))
    && (forall b :: b in s.bullets ==> b.vel != Zero)
    && (s.ufo.Some? ==> |s.markers| >= s.ufoLives)
  }

  function RemoveAt<T>(s: seq<T>, i: nat): seq<T>
    requires i < |s|
  {
    s[..i] + s[i + 1..]
  }

  lemma RemoveAtParts<T>(s: seq<T>, i: nat, t: seq<T>)
    requires i < |s|
    ensures |RemoveAt(s, i)| == |s| - 1
    ensures multiset(RemoveAt(s, i)) + multiset{s[i]} == multiset(s)
    ensures RemoveAt(s + t, i) == RemoveAt(s, i) + t
  {
    assert s == s[..i] + [s[i]] + s[i + 1..];
    assert (s + t)[..i] == s[..i];
    assert (s + t)[i + 1..] == s[i + 1..] + t;
  }

  // ---------------------------------------------------------------- creation

  /** newShip: the ship the level describes. */
  function NewShip(sm: ShipMethods, data: Level): Ship
  {
    sm.create(data.ship.x, data.ship.y, data.ship.angle)
  }

  /** The asteroid built for entry i of the level: its own position and size, but entry 0's direction. */
  function LevelAsteroid(c: Consts, m: MathLib, data: Level, i: nat): Asteroid
    requires m.Valid() && i < |data.asteroids|
  {
    var e := data.asteroids[i];
    NewAsteroid(c, m, e.x, e.y, e.size, data.asteroids[0].direction)
  }

  function LevelAsteroids(c: Consts, m: MathLib, data: Level): seq<Asteroid>
    requires m.Valid()
  {
    seq(|data.asteroids|, i requires 0 <= i < |data.asteroids| => LevelAsteroid(c, m, data, i))
  }

  /** new_UFO: a UFO (with or without an alien) at a random place, when the level has one. */
  function LevelUfo(c: Consts, m: MathLib, data: Level, draw: UfoDraw): Option<Ufo>
    requires c.Valid() && m.Valid() && (data.ufo.Some? ==> draw.Valid(c))
  {
    match data.ufo
    case None => None
    case Some(alien) => Some(NewUfo(c, m, draw.x as real, draw.y as real, alien, draw.dx, draw.dy))
  }

  /** The i-th marker of alienLives_image: in a row below the UFO, moving with it. */
  function LifeMarker(c: Consts, u: Ufo, i: nat): Marker
  {
    Marker(u.x - 20.0 + 20.0 * i as real, u.y + c.ufoRadius + 15.0, u.vel)
  }

  function LifeMarkers(c: Consts, ufo: Option<Ufo>): seq<Marker>
    requires c.Valid()
  {
    match ufo
    case None => []
    case Some(u) => seq(c.ufoLives, i requires 0 <= i => LifeMarker(c, u, i))
  }

  /** The state Wave.__init__ builds from a level. */
  function Initial(c: Consts, m: MathLib, sm: ShipMethods, data: Level, draw: UfoDraw): (s: Snapshot)
    requires c.Valid() && m.Valid() && sm.Valid() && (data.ufo.Some? ==> draw.Valid(c))
    ensures WellFormed(s)
  {
    var ufo := LevelUfo(c, m, data, draw);
    Snapshot(Some(NewShip(sm, data)), LevelAsteroids(c, m, data), [], ufo, LifeMarkers(c, ufo),
             c.shipLives, c.ufoLives, 0)
  }

  /**
   * A new wave has no bullets, a zero fire counter and full lives; one
   * asteroid per level entry, each with its own position and size but all
   * moving along entry 0's direction at the speed of their size; a UFO exactly
   * when the level has one, with UFO_LIVES markers, and no markers otherwise.
   */
  lemma InitialFacts(c: Consts, m: MathLib, sm: ShipMethods, data: Level, draw: UfoDraw)
    requires c.Valid() && m.Valid() && sm.Valid() && (data.ufo.Some? ==> draw.Valid(c))
    ensures var s := Initial(c, m, sm, data, draw);
      && s.bullets == [] && s.fireRate == 0
      && s.lives == c.shipLives && s.ufoLives == c.ufoLives
      && s.ship.Some? && s.ship.value.x == data.ship.x && s.ship.value.y == data.ship.y
      && |s.asteroids| == |data.asteroids|
      && (forall i :: 0 <= i < |s.asteroids| ==>
            && s.asteroids[i].x == data.asteroids[i].x
            && s.asteroids[i].y == data.asteroids[i].y
            && s.asteroids[i].size == data.asteroids[i].size
            && s.asteroids[i].vel == AsteroidVelocity(c, m, data.asteroids[i].size, data.asteroids[0].direction))
      && (s.ufo.Some? <==> data.ufo.Some?)
      && |s.markers| == (if data.ufo.Some? then c.ufoLives else 0)
      && WellFormed(s)
  {
  }

  // ---------------------------------------------------------------- motion

  /** The ship's reaction to the arrow keys: left, then right, then thrust. */
  function Steer(sm: ShipMethods, sh: Ship, keys: Keys): Ship
  {
    var a := if keys.left then sm.turnLeft(sh) else sh;
    var b := if keys.right then sm.turnRight(a) else a;
    if keys.up then sm.applyThrust(b) else b
  }

  /** The ship moves by its velocity and wraps. */
  function MoveShip(sm: ShipMethods, sh: Ship): Ship
  {
    sm.wrap(Ship(sh.x + sh.vel.x, sh.y + sh.vel.y, sh.vel, sh.facing))
  }

  /** Steering and moving keep the ship facing along a unit vector. */
  lemma ShipStepKeepsUnit(sm: ShipMethods, sh: Ship, keys: Keys)
    requires sm.Valid() && IsUnit(sh.facing)
    ensures IsUnit(MoveShip(sm, Steer(sm, sh, keys)).facing)
  {
  }

  /** An asteroid moves by its velocity and wraps along each axis. */
  function MoveAsteroid(c: Consts, a: Asteroid): Asteroid
  {
    Asteroid(WrapX(c, a.x + a.vel.x), WrapY(c, a.y + a.vel.y), a.size, a.vel)
  }

  function MoveAll(c: Consts, asts: seq<Asteroid>): seq<Asteroid>
  {
    seq(|asts|, i requires 0 <= i < |asts| => MoveAsteroid(c, asts[i]))
  }

  /** Moving the asteroid at index i of a list whose first i asteroids have moved. */
  lemma MovedOneMore(c: Consts, a0: seq<Asteroid>, i: nat)
    requires i < |a0|
    ensures (MoveAll(c, a0)[..i] + a0[i..])[i := MoveAsteroid(c, a0[i])] == MoveAll(c, a0)[..i + 1] + a0[i + 1..]
    ensures MoveAll(c, a0)[i] == MoveAsteroid(c, a0[i])
  {
    var l := MoveAll(c, a0)[..i] + a0[i..];
    var r := MoveAll(c, a0)[..i + 1] + a0[i + 1..];
    assert |l[i := MoveAsteroid(c, a0[i])]| == |r|;
    forall j | 0 <= j < |r| ensures l[i := MoveAsteroid(c, a0[i])][j] == r[j] {
      if j < i {
        assert r[j] == MoveAll(c, a0)[j];
      } else if j > i {
        assert r[j] == a0[j];
      }
    }
  }

  /** A list whose every entry has moved is the moved list. */
  lemma AllMoved<T>(moved: seq<T>, a0: seq<T>)
    requires |moved| == |a0|
    ensures moved[..|a0|] + a0[|a0|..] == moved
  {
    assert a0[|a0|..] == [];
  }

  /** Writing the entry at index i of a list whose first i entries come from `moved` and the rest from `a0`. */
  lemma ReplaceNext<T>(moved: seq<T>, a0: seq<T>, i: nat)
    requires |moved| == |a0| && i < |a0|
    ensures (moved[..i] + a0[i..])[i := moved[i]] == moved[..i + 1] + a0[i + 1..]
  {
    var l := (moved[..i] + a0[i..])[i := moved[i]];
    var r := moved[..i + 1] + a0[i + 1..];
    assert |l| == |r|;
    forall j | 0 <= j < |r| ensures l[j] == r[j] {
      if j < i {
        assert r[j] == moved[j];
      } else if j > i {
        assert r[j] == a0[j];
      }
    }
  }

  /** Removing index k from a list whose first k + 1 entries come from `moved` and the rest from `a0`. */
  lemma RemoveMoved<T>(moved: seq<T>, a0: seq<T>, k: nat)
    requires k < |moved| == |a0|
    ensures k < |moved[..k + 1] + a0[k + 1..]|
    ensures (moved[..k + 1] + a0[k + 1..])[k] == moved[k]
    ensures RemoveAt(moved[..k + 1] + a0[k + 1..], k) == moved[..k] + a0[k + 1..]
  {
    var l := moved[..k + 1] + a0[k + 1..];
    assert l[..k] == moved[..k];
    assert l[k + 1..] == a0[k + 1..];
  }

  /** A bullet moves by its velocity; bullets do not wrap. */
  function MoveBullet(b: Bullet): Bullet
  {
    Bullet(b.x + b.vel.x, b.y + b.vel.y, b.vel)
  }

  /** Every bullet moves by its own velocity, which stays what it was built with. */
  function MoveBullets(bs: seq<Bullet>): (r: seq<Bullet>)
    ensures |r| == |bs|
    ensures forall i :: 0 <= i < |bs| ==> r[i].vel == bs[i].vel && r[i].x - bs[i].x == bs[i].vel.x && r[i].y - bs[i].y == bs[i].vel.y
  {
    seq(|bs|, i requires 0 <= i < |bs| => MoveBullet(bs[i]))
  }

  // ---------------------------------------------------------------- collisions

  /**
   * The index of the first asteroid that collides with o: the asteroid found
   * by the loops over _asteroids that stop at the first collision.
   */
  function FirstHit(c: Consts, m: MathLib, asts: seq<Asteroid>, o: Body): (r: Option<nat>)
    ensures r.Some? ==> r.value < |asts| && AsteroidCollides(c, m, asts[r.value], o)
    ensures r.Some? ==> forall j :: 0 <= j < r.value ==> !AsteroidCollides(c, m, asts[j], o)
    ensures r.None? <==> forall j :: 0 <= j < |asts| ==> !AsteroidCollides(c, m, asts[j], o)
  {
    if |asts| == 0 then None
    else if AsteroidCollides(c, m, asts[0], o) then Some(0)
    else
      match FirstHit(c, m, asts[1..], o)
      case None => None
      case Some(k) => Some(k + 1)
  }

  /** An index where o collides, with no collision before it, is the first hit. */
  lemma FirstHitAt(c: Consts, m: MathLib, asts: seq<Asteroid>, o: Body, k: nat)
    requires k < |asts| && AsteroidCollides(c, m, asts[k], o)
    requires forall j :: 0 <= j < k ==> !AsteroidCollides(c, m, asts[j], o)
    ensures FirstHit(c, m, asts, o) == Some(k)
  {
  }

  /** A prefix with no hit followed by a hit: that index is the first hit. */
  lemma HitAfterClear(c: Consts, m: MathLib, asts: seq<Asteroid>, o: Body, k: nat)
    requires k < |asts| && AsteroidCollides(c, m, asts[k], o)
    requires FirstHit(c, m, asts[..k], o).None?
    ensures FirstHit(c, m, asts, o) == Some(k)
  {
    assert forall j :: 0 <= j < k ==> asts[..k][j] == asts[j];
  }

  /** A prefix with no hit, extended by an entry that does not hit, still has no hit. */
  lemma ClearOneMore(c: Consts, m: MathLib, asts: seq<Asteroid>, o: Body, k: nat)
    requires k < |asts| && !AsteroidCollides(c, m, asts[k], o)
    requires FirstHit(c, m, asts[..k], o).None?
    ensures FirstHit(c, m, asts[..k + 1], o).None?
  {
    assert forall j :: 0 <= j < k ==> asts[..k][j] == asts[..k + 1][j];
  }

  /** collision_UFO: the centres are closer than the UFO's radius plus the ship's or bullet's. */
  function UfoCollides(c: Consts, m: MathLib, u: Ufo, o: Body): bool
  {
    var d := Distance(m, u.x, u.y, o.x, o.y);
    match o
    case ShipBody(_, _) => d < c.ufoRadius + c.shipRadius
    case BulletBody(_, _) => d < c.ufoRadius + c.bulletRadius
    case OtherBody(_, _) => false
  }

  /** The UFO collides with a ship or bullet exactly when the squared distance is below the squared radii sum. */
  lemma UfoCollisionGeometry(c: Consts, m: MathLib, u: Ufo, o: Body)
    requires c.Valid() && m.Valid()
    ensures !o.OtherBody? ==>
      (UfoCollides(c, m, u, o) <==>
        (u.x - o.x) * (u.x - o.x) + (u.y - o.y) * (u.y - o.y)
          < (c.ufoRadius + BodyRadius(c, o)) * (c.ufoRadius + BodyRadius(c, o)))
    ensures o.OtherBody? ==> !UfoCollides(c, m, u, o)
  {
    if !o.OtherBody? {
      CloserThan(m, u.x, u.y, o.x, o.y, c.ufoRadius + BodyRadius(c, o));
    }
  }

  // ---------------------------------------------------------------- fragments

  /** The size of the pieces an asteroid breaks into; small asteroids do not break. */
  function NextSize(size: Size): Option<Size>
  {
    match size
    case Large => Some(Medium)
    case Medium => Some(Small)
    case Small => None
  }

  /** new_asteroid: a piece whose centre is the parent's centre plus its radius along d, moving along d. */
  function NewFragment(c: Consts, m: MathLib, size: Size, d: Vec, x: real, y: real): Asteroid
    requires m.Valid()
  {
    NewAsteroid(c, m, Radius(c, size) * d.x + x, Radius(c, size) * d.y + y, size, d)
  }

  lemma UnitNonZero(v: Vec)
    requires IsUnit(v)
    ensures v != Zero
  {
  }

  /** The three directions of breaking_asteroids: the reference turned by 120 and 240 degrees, and the reference. */
  function Directions(m: MathLib, ref: Vec): (ds: seq<Vec>)
    requires m.Valid() && ref != Zero
    ensures |ds| == 3 && forall i :: 0 <= i < 3 ==> IsUnit(ds[i])
  {
    var u := Normalize(m, ref);
    TurnsKeepUnit(m, u);
    UnitNonZero(Turn120(m, u));
    UnitNonZero(Turn240(m, u));
    [Normalize(m, Turn120(m, u)), Normalize(m, Turn240(m, u)), u]
  }

  /**
   * breaking_asteroids: a large asteroid breaks into three medium ones and a
   * medium one into three small ones, one along each direction; a small one
   * leaves nothing.
   */
  function Fragments(c: Consts, m: MathLib, parent: Asteroid, ref: Vec): (r: seq<Asteroid>)
    requires m.Valid() && ref != Zero
    ensures |r| == (if parent.size == Small then 0 else 3)
    ensures forall a :: a in r ==> NextSize(parent.size) == Some(a.size)
  {
    var ds := Directions(m, ref);
    match NextSize(parent.size)
    case None => []
    case Some(size) =>
      [NewFragment(c, m, size, ds[0], parent.x, parent.y),
       NewFragment(c, m, size, ds[1], parent.x, parent.y),
       NewFragment(c, m, size, ds[2], parent.x, parent.y)]
  }

  /**
   * The directions of a break, with u the reference normalized: u turned by
   * 120 degrees, by 240 degrees, and u itself; each is the one before turned
   * by 120 degrees, and the three add up to the zero vector.
   */
  lemma DirectionsTurn(m: MathLib, ref: Vec)
    requires m.Valid() && ref != Zero
    ensures var u := Normalize(m, ref);
      var ds := Directions(m, ref);
      && ds == [Turn120(m, u), Turn240(m, u), u]
      && ds[1] == Turn120(m, ds[0]) && ds[2] == Turn120(m, ds[1]) && ds[0] == Turn120(m, ds[2])
      && ds[0].x + ds[1].x + ds[2].x == 0.0 && ds[0].y + ds[1].y + ds[2].y == 0.0
  {
    var u := Normalize(m, ref);
    TurnsKeepUnit(m, u);
    NormalizeUnit(m, Turn120(m, u));
    NormalizeUnit(m, Turn240(m, u));
    TurnsCompose(m, u);
    TurnsCompose(m, Turn120(m, u));
    TurnsCancel(m, u);
  }

  /** A piece along a unit direction d: its centre is one radius along d, and it moves along d at its size's speed. */
  lemma PieceAlongUnit(c: Consts, m: MathLib, size: Size, d: Vec, x: real, y: real)
    requires m.Valid() && IsUnit(d)
    ensures NewFragment(c, m, size, d, x, y) == Piece(c, size, d, x, y)
  {
    NormalizeUnit(m, d);
    assert !(d.x == 0.0 && d.y == 0.0);
    assert AsteroidVelocity(c, m, size, d) == Scale(Speed(c, size), Normalize(m, d));
  }

  /** The piece of a break along a unit direction d from a parent centred at (x, y). */
  function Piece(c: Consts, size: Size, d: Vec, x: real, y: real): Asteroid
  {
    Asteroid(x + Radius(c, size) * d.x, y + Radius(c, size) * d.y, size, Scale(Speed(c, size), d))
  }

  /**
   * The geometry of a break of a large or medium asteroid: each of the three
   * pieces lies one piece radius from the parent's centre along its direction
   * and moves along it at the speed of its size.
   */
  lemma FragmentPieces(c: Consts, m: MathLib, parent: Asteroid, ref: Vec)
    requires m.Valid() && ref != Zero && parent.size != Small
    ensures var ds := Directions(m, ref);
      var size := NextSize(parent.size).value;
      Fragments(c, m, parent, ref)
        == [Piece(c, size, ds[0], parent.x, parent.y), Piece(c, size, ds[1], parent.x, parent.y),
            Piece(c, size, ds[2], parent.x, parent.y)]
  {
    var ds := Directions(m, ref);
    var size := NextSize(parent.size).value;
    PieceAlongUnit(c, m, size, ds[0], parent.x, parent.y);
    PieceAlongUnit(c, m, size, ds[1], parent.x, parent.y);
    PieceAlongUnit(c, m, size, ds[2], parent.x, parent.y);
  }

  /** The three pieces of a break of a large or medium asteroid are centred, on average, on the parent's centre. */
  lemma FragmentCentroid(c: Consts, m: MathLib, parent: Asteroid, ref: Vec)
    requires m.Valid() && ref != Zero && parent.size != Small
    ensures var f := Fragments(c, m, parent, ref);
      && f[0].x + f[1].x + f[2].x == 3.0 * parent.x
      && f[0].y + f[1].y + f[2].y == 3.0 * parent.y
  {
    var ds := Directions(m, ref);
    var size := NextSize(parent.size).value;
    FragmentPieces(c, m, parent, ref);
    DirectionsTurn(m, ref);
    PiecesCentroid(c, size, ds[0], ds[1], ds[2], parent.x, parent.y);
  }

  lemma PiecesCentroid(c: Consts, size: Size, d0: Vec, d1: Vec, d2: Vec, x: real, y: real)
    requires d0.x + d1.x + d2.x == 0.0 && d0.y + d1.y + d2.y == 0.0
    ensures Piece(c, size, d0, x, y).x + Piece(c, size, d1, x, y).x + Piece(c, size, d2, x, y).x == 3.0 * x
    ensures Piece(c, size, d0, x, y).y + Piece(c, size, d1, x, y).y + Piece(c, size, d2, x, y).y == 3.0 * y
  {
    Centroid(x, Radius(c, size), d0.x, d1.x, d2.x);
    Centroid(y, Radius(c, size), d0.y, d1.y, d2.y);
  }

  lemma Centroid(p: real, r: real, a: real, b: real, d: real)
    requires a + b + d == 0.0
    ensures (p + r * a) + (p + r * b) + (p + r * d) == 3.0 * p
  {
    assert r * a + r * b + r * d == r * (a + b + d);
  }

  /** The direction a ship breaks an asteroid along: its velocity, or its facing when it stands still. */
  function ShipReference(sh: Ship): Vec
  {
    if sh.vel == Zero then sh.facing else sh.vel
  }

  // ---------------------------------------------------------------- firing

  /** The bullet shot_bullet creates at the tip of a ship at (x, y) facing along `facing`. */
  function NewBullet(c: Consts, x: real, y: real, facing: Vec): Bullet
  {
    Bullet(x + facing.x * c.shipRadius, y + facing.y * c.shipRadius,
           Vec(facing.x * c.bulletSpeed, facing.y * c.bulletSpeed))
  }

  lemma BulletSpeed(c: Consts, x: real, y: real, facing: Vec)
    requires c.Valid()
    ensures var v := NewBullet(c, x, y, facing).vel;
      IsUnit(facing) ==> v.x * v.x + v.y * v.y == c.bulletSpeed * c.bulletSpeed && v != Zero
  {
    if IsUnit(facing) {
      ScaledUnit(c.bulletSpeed, facing);
      ScaledUnitNonZero(c.bulletSpeed, facing);
    }
  }

  /**
   * shoot_bullet: when the fire counter has reached `rate`, exactly one bullet
   * is added and the counter restarts from zero; otherwise nothing changes.
   * A shot from a ship facing along a unit vector flies at BULLET_SPEED.
   */
  function Shoot(c: Consts, s: Snapshot, x: real, y: real, facing: Vec, rate: int): (r: Snapshot)
    requires c.Valid()
    ensures s.fireRate >= rate ==>
      && r.fireRate == 0
      && |r.bullets| == |s.bullets| + 1 && r.bullets[..|s.bullets|] == s.bullets
      && r.bullets[|s.bullets|] == NewBullet(c, x, y, facing)
    ensures s.fireRate < rate ==> r == s
    ensures r.(bullets := s.bullets, fireRate := s.fireRate) == s
    ensures IsUnit(facing) ==> forall b :: b in r.bullets ==>
      (b in s.bullets || (b.vel.x * b.vel.x + b.vel.y * b.vel.y == c.bulletSpeed * c.bulletSpeed && b.vel != Zero))
  {
    if s.fireRate >= rate then
      var b := NewBullet(c, x, y, facing);
      BulletSpeed(c, x, y, facing);
      s.(fireRate := 0, bullets := s.bullets + [b])
    else s
  }

  /** The first half of bullet_update: with a ship, fire when the spacebar is down, then move every bullet. */
  function Arm(c: Consts, s: Snapshot, keys: Keys): Snapshot
    requires c.Valid()
  {
    match s.ship
    case None => s
    case Some(sh) =>
      var s1 := if keys.spacebar then Shoot(c, s, sh.x, sh.y, sh.facing, c.bulletRate) else s;
      s1.(bullets := MoveBullets(s1.bullets))
  }

  // ---------------------------------------------------------------- the bullet loop

  /** A bullet inside the playing field extended by the dead zone on every side. */
  predicate InField(c: Consts, b: Bullet)
  {
    InBand(b.x, c.gameWidth as real, c.deadZone) && InBand(b.y, c.gameHeight as real, c.deadZone)
  }

  predicate Moving(bs: seq<Bullet>)
  {
    forall b :: b in bs ==> b.vel != Zero
  }

  lemma RemoveKeepsMoving(bs: seq<Bullet>, i: nat)
    requires Moving(bs) && i < |bs|
    ensures Moving(RemoveAt(bs, i))
  {
    forall b | b in RemoveAt(bs, i) ensures b.vel != Zero {
      assert b in bs[..i] || b in bs[i + 1..];
    }
  }

  /**
   * The while loop of bullet_update from index i on. A bullet outside the
   * field is deleted. Otherwise the first asteroid it hits is removed, the
   * bullet is removed and the asteroid's pieces are appended; then, if it
   * overlaps the UFO, the bullet is removed (again, which raises: None), the
   * UFO loses a life and, while that count is not negative, the last marker is
   * deleted. Only a bullet that hit nothing advances the index.
   */
  function Pass(c: Consts, m: MathLib, s: Snapshot, i: nat): Option<Snapshot>
    requires m.Valid() && Moving(s.bullets)
    decreases |s.bullets| - i
  {
    if i >= |s.bullets| then Some(s)
    else
      var b := s.bullets[i];
      if !InField(c, b) then
        Pass(c, m, s.(bullets := RemoveAt(s.bullets, i)), i)
      else
        var hit := FirstHit(c, m, s.asteroids, BulletBody(b.x, b.y));
        if s.ufo.Some? && UfoCollides(c, m, s.ufo.value, BulletBody(b.x, b.y)) then
          if hit.Some? then None
          else if s.ufoLives - 1 >= 0 && |s.markers| == 0 then None
          else
            Pass(c, m, s.(bullets := RemoveAt(s.bullets, i), ufoLives := s.ufoLives - 1,
                          markers := if s.ufoLives - 1 >= 0 then s.markers[..|s.markers| - 1] else s.markers), i)
        else if hit.Some? then
          var k := hit.value;
          Pass(c, m, s.(asteroids := RemoveAt(s.asteroids, k) + Fragments(c, m, s.asteroids[k], b.vel),
                        bullets := RemoveAt(s.bullets, i)), i)
        else
          Pass(c, m, s, i + 1)
  }

  // One pass of the loop, case by case.

  lemma PassCulled(c: Consts, m: MathLib, s: Snapshot, i: nat)
    requires m.Valid() && Moving(s.bullets) && i < |s.bullets| && !InField(c, s.bullets[i])
    ensures Moving(RemoveAt(s.bullets, i))
    ensures Pass(c, m, s, i) == Pass(c, m, s.(bullets := RemoveAt(s.bullets, i)), i)
  {
    RemoveKeepsMoving(s.bullets, i);
  }

  lemma PassHitsAsteroid(c: Consts, m: MathLib, s: Snapshot, i: nat, k: nat)
    requires m.Valid() && Moving(s.bullets) && i < |s.bullets| && InField(c, s.bullets[i])
    requires FirstHit(c, m, s.asteroids, BulletBody(s.bullets[i].x, s.bullets[i].y)) == Some(k)
    ensures k < |s.asteroids| && Moving(RemoveAt(s.bullets, i))
    ensures var b := s.bullets[i];
      s.ufo.Some? && UfoCollides(c, m, s.ufo.value, BulletBody(b.x, b.y)) ==> Pass(c, m, s, i) == None
    ensures var b := s.bullets[i];
      !(s.ufo.Some? && UfoCollides(c, m, s.ufo.value, BulletBody(b.x, b.y))) ==>
        Pass(c, m, s, i)
          == Pass(c, m, s.(asteroids := RemoveAt(s.asteroids, k) + Fragments(c, m, s.asteroids[k], b.vel),
                           bullets := RemoveAt(s.bullets, i)), i)
  {
    RemoveKeepsMoving(s.bullets, i);
  }

  lemma PassHitsUfo(c: Consts, m: MathLib, s: Snapshot, i: nat)
    requires m.Valid() && Moving(s.bullets) && i < |s.bullets| && InField(c, s.bullets[i])
    requires FirstHit(c, m, s.asteroids, BulletBody(s.bullets[i].x, s.bullets[i].y)).None?
    requires s.ufo.Some? && UfoCollides(c, m, s.ufo.value, BulletBody(s.bullets[i].x, s.bullets[i].y))
    ensures Moving(RemoveAt(s.bullets, i))
    ensures s.ufoLives - 1 >= 0 && |s.markers| == 0 ==> Pass(c, m, s, i) == None
    ensures !(s.ufoLives - 1 >= 0 && |s.markers| == 0) ==>
      Pass(c, m, s, i)
        == Pass(c, m, s.(bullets := RemoveAt(s.bullets, i), ufoLives := s.ufoLives - 1,
                         markers := if s.ufoLives - 1 >= 0 then s.markers[..|s.markers| - 1] else s.markers), i)
  {
    RemoveKeepsMoving(s.bullets, i);
  }

  lemma PassMisses(c: Consts, m: MathLib, s: Snapshot, i: nat)
    requires m.Valid() && Moving(s.bullets) && i < |s.bullets| && InField(c, s.bullets[i])
    requires FirstHit(c, m, s.asteroids, BulletBody(s.bullets[i].x, s.bullets[i].y)).None?
    requires !(s.ufo.Some? && UfoCollides(c, m, s.ufo.value, BulletBody(s.bullets[i].x, s.bullets[i].y)))
    ensures Pass(c, m, s, i) == Pass(c, m, s, i + 1)
  {
  }

  /**
   * What the bullet loop keeps apart from the bullets and the asteroids: the
   * ship, the lives, the fire counter and the UFO itself. The UFO loses lives
   * but never gains them, and it never runs short of markers.
   */
  lemma {:induction false} PassFrame(c: Consts, m: MathLib, s: Snapshot, i: nat)
    requires m.Valid() && Moving(s.bullets)
    requires Pass(c, m, s, i).Some?
    ensures var r := Pass(c, m, s, i).value;
      && r.ship == s.ship && r.lives == s.lives && r.fireRate == s.fireRate && r.ufo == s.ufo
      && r.ufoLives <= s.ufoLives
      && (s.ufo.Some? && |s.markers| >= s.ufoLives ==> |r.markers| >= r.ufoLives)
    decreases |s.bullets| - i
  {
    if i < |s.bullets| {
      var b := s.bullets[i];
      if !InField(c, b) {
        PassCulled(c, m, s, i);
        PassFrame(c, m, s.(bullets := RemoveAt(s.bullets, i)), i);
      } else {
        match FirstHit(c, m, s.asteroids, BulletBody(b.x, b.y))
        case Some(k) =>
          PassHitsAsteroid(c, m, s, i, k);
          PassFrame(c, m, s.(asteroids := RemoveAt(s.asteroids, k) + Fragments(c, m, s.asteroids[k], b.vel),
                             bullets := RemoveAt(s.bullets, i)), i);
        case None =>
          if s.ufo.Some? && UfoCollides(c, m, s.ufo.value, BulletBody(b.x, b.y)) {
            PassHitsUfo(c, m, s, i);
            PassFrame(c, m, s.(bullets := RemoveAt(s.bullets, i), ufoLives := s.ufoLives - 1,
                               markers := if s.ufoLives - 1 >= 0 then s.markers[..|s.markers| - 1] else s.markers), i);
          } else {
            PassMisses(c, m, s, i);
            PassFrame(c, m, s, i + 1);
          }
      }
    }
  }

  /**
   * What the bullet loop does to the bullets from index i on: the ones before
   * i stay, and every kept bullet from index i on lies in the field.
   */
  lemma {:induction false} PassBullets(c: Consts, m: MathLib, s: Snapshot, i: nat)
    requires m.Valid() && Moving(s.bullets) && i <= |s.bullets|
    requires Pass(c, m, s, i).Some?
    ensures var r := Pass(c, m, s, i).value;
      && i <= |r.bullets| && r.bullets[..i] == s.bullets[..i]
      && (forall j :: i <= j < |r.bullets| ==> InField(c, r.bullets[j]))
    decreases |s.bullets| - i
  {
    if i == |s.bullets| {
      return;
    }
    var b := s.bullets[i];
    var rest := RemoveAt(s.bullets, i);
    RemoveAtParts(s.bullets, i, []);
    var hit := FirstHit(c, m, s.asteroids, BulletBody(b.x, b.y));
    if InField(c, b) && !(s.ufo.Some? && UfoCollides(c, m, s.ufo.value, BulletBody(b.x, b.y))) && hit.None? {
      PassMisses(c, m, s, i);
      PassBullets(c, m, s, i + 1);
      PrefixStep(Pass(c, m, s, i + 1).value.bullets, s.bullets, i);
    } else {
      var s1 := PassRemoves(c, m, s, i);
      PassBullets(c, m, s1, i);
      assert rest[..i] == s.bullets[..i];
    }
  }

  /** Two sequences that agree on their first i + 1 elements agree on the first i and on the one at i. */
  lemma PrefixStep<T>(r: seq<T>, s: seq<T>, i: nat)
    requires i < |r| && i < |s| && r[..i + 1] == s[..i + 1]
    ensures r[..i] == s[..i] && r[i] == s[i]
  {
    assert r[..i] == r[..i + 1][..i] && s[..i] == s[..i + 1][..i];
    assert r[i] == r[..i + 1][i] && s[i] == s[..i + 1][i];
  }

  /** Every bullet the loop keeps was there before, each as often as before at most: it never creates one. */
  lemma {:induction false} PassKeepsBullets(c: Consts, m: MathLib, s: Snapshot, i: nat)
    requires m.Valid() && Moving(s.bullets)
    requires Pass(c, m, s, i).Some?
    ensures multiset(Pass(c, m, s, i).value.bullets) <= multiset(s.bullets)
    decreases |s.bullets| - i
  {
    if i < |s.bullets| {
      var b := s.bullets[i];
      var hit := FirstHit(c, m, s.asteroids, BulletBody(b.x, b.y));
      if InField(c, b) && !(s.ufo.Some? && UfoCollides(c, m, s.ufo.value, BulletBody(b.x, b.y))) && hit.None? {
        assert Pass(c, m, s, i) == Pass(c, m, s, i + 1);
        PassKeepsBullets(c, m, s, i + 1);
      } else {
        var s1 := PassRemoves(c, m, s, i);
        PassKeepsBullets(c, m, s1, i);
        RemoveAtParts(s.bullets, i, []);
        SubMultiset(multiset(Pass(c, m, s, i).value.bullets), multiset(s1.bullets), multiset(s.bullets), s.bullets[i]);
      }
    }
  }

  lemma SubMultiset<T>(a: multiset<T>, b: multiset<T>, c: multiset<T>, x: T)
    requires a <= b && b + multiset{x} == c
    ensures a <= c
  {
  }

  /** The state the bullet loop continues from, at the same index, once the bullet at index i is removed. */
  function PassRemoves(c: Consts, m: MathLib, s: Snapshot, i: nat): (s1: Snapshot)
    requires m.Valid() && Moving(s.bullets) && i < |s.bullets|
    requires Pass(c, m, s, i).Some?
    requires var b := s.bullets[i];
      !(InField(c, b) && !(s.ufo.Some? && UfoCollides(c, m, s.ufo.value, BulletBody(b.x, b.y)))
        && FirstHit(c, m, s.asteroids, BulletBody(b.x, b.y)).None?)
    ensures s1.bullets == RemoveAt(s.bullets, i) && Moving(s1.bullets)
    ensures Pass(c, m, s1, i) == Pass(c, m, s, i)
  {
    var b := s.bullets[i];
    var hit := FirstHit(c, m, s.asteroids, BulletBody(b.x, b.y));
    if !InField(c, b) then s.(bullets := RemoveAt(s.bullets, i))
    else if s.ufo.Some? && UfoCollides(c, m, s.ufo.value, BulletBody(b.x, b.y)) then
      s.(bullets := RemoveAt(s.bullets, i), ufoLives := s.ufoLives - 1,
         markers := if s.ufoLives - 1 >= 0 then s.markers[..|s.markers| - 1] else s.markers)
    else
      s.(asteroids := RemoveAt(s.asteroids, hit.value) + Fragments(c, m, s.asteroids[hit.value], b.vel),
         bullets := RemoveAt(s.bullets, i))
  }

  /** Without a UFO the bullet loop cannot fail. */
  lemma {:induction false} PassWithoutUfo(c: Consts, m: MathLib, s: Snapshot, i: nat)
    requires m.Valid() && Moving(s.bullets) && s.ufo.None?
    ensures Pass(c, m, s, i).Some?
    decreases |s.bullets| - i
  {
    if i < |s.bullets| {
      var b := s.bullets[i];
      RemoveAtParts(s.bullets, i, []);
      if !InField(c, b) {
        PassWithoutUfo(c, m, s.(bullets := RemoveAt(s.bullets, i)), i);
      } else {
        var hit := FirstHit(c, m, s.asteroids, BulletBody(b.x, b.y));
        if hit.Some? {
          var k := hit.value;
          PassWithoutUfo(c, m, s.(asteroids := RemoveAt(s.asteroids, k) + Fragments(c, m, s.asteroids[k], b.vel),
                                  bullets := RemoveAt(s.bullets, i)), i);
        } else {
          PassWithoutUfo(c, m, s, i + 1);
        }
      }
    }
  }

  // ---------------------------------------------------------------- the UFO

  /** update_UFOLives: the first n markers move with the UFO; indexing past the list raises (None). */
  function MoveMarkers(c: Consts, markers: seq<Marker>, vel: Vec, n: int): (r: Option<seq<Marker>>)
    requires c.Valid()
    ensures r.Some? <==> n <= |markers|
    ensures r.Some? ==> |r.value| == |markers|
  {
    if n > |markers| then None
    else Some(seq(|markers|, j requires 0 <= j < |markers| => if j < n then MoveMarker(c, markers[j], vel) else markers[j]))
  }

  /**
   * The end of update: the UFO moves, its markers follow, and it is gone once
   * it has no lives left. A UFO that survives has a life left; a wave whose
   * markers cover the UFO's lives never fails here.
   */
  function UfoPhase(c: Consts, s: Snapshot): (r: Option<Snapshot>)
    requires c.Valid()
    ensures s.ufo.None? ==> r == Some(s)
    ensures r.Some? && r.value.ufo.Some? ==> r.value.ufoLives >= 1
    ensures s.ufo.Some? && s.ufoLives < 1 && r.Some? ==> r.value.ufo.None?
    ensures (s.ufo.Some? ==> |s.markers| >= s.ufoLives) ==> r.Some?
    ensures r.Some? ==> r.value.(ufo := s.ufo, markers := s.markers) == s && |r.value.markers| == |s.markers|
  {
    match s.ufo
    case None => Some(s)
    case Some(u) =>
      var u1 := UpdateUfo(c, u);
      match MoveMarkers(c, s.markers, u1.vel, s.ufoLives)
      case None => None
      case Some(mk) => Some(s.(ufo := if s.ufoLives < 1 then None else Some(u1), markers := mk))
  }

  // ---------------------------------------------------------------- the frame

  /** bullet_update: arming, then the while loop from index 0. */
  function BulletPhase(c: Consts, m: MathLib, s: Snapshot, keys: Keys): Option<Snapshot>
    requires c.Valid() && m.Valid() && WellFormed(s)
  {
    ArmKeepsMoving(c, s, keys);
    Pass(c, m, Arm(c, s, keys), 0)
  }

  /** bullet_update, then the UFO's part of update. */
  function Rest(c: Consts, m: MathLib, s: Snapshot, keys: Keys): Option<Snapshot>
    requires c.Valid() && m.Valid() && WellFormed(s)
  {
    match BulletPhase(c, m, s, keys)
    case None => None
    case Some(s2) => UfoPhase(c, s2)
  }

  lemma ArmKeepsMoving(c: Consts, s: Snapshot, keys: Keys)
    requires c.Valid() && WellFormed(s)
    ensures Moving(Arm(c, s, keys).bullets)
    ensures var a := Arm(c, s, keys);
      a.(bullets := s.bullets, fireRate := s.fireRate) == s && |a.markers| == |s.markers|
  {
    if s.ship.Some? {
      var sh := s.ship.value;
      var s1 := if keys.spacebar then Shoot(c, s, sh.x, sh.y, sh.facing, c.bulletRate) else s;
      assert Moving(s1.bullets);
      forall b | b in MoveBullets(s1.bullets) ensures b.vel != Zero {
        var j :| 0 <= j < |s1.bullets| && MoveBullets(s1.bullets)[j] == b;
        assert s1.bullets[j] in s1.bullets;
      }
    }
  }

  /**
   * Wave.update for one frame. The fire counter goes up by one. With a ship:
   * it steers and moves, then each asteroid moves and is checked against the
   * ship; the first one that hits costs a life, breaks, is removed and takes
   * the ship, and the frame ends. Otherwise a UFO that hits the ship costs a
   * life and a UFO life, takes the ship, and the frame ends. Then the bullets
   * and the UFO take their turn. None is the frame that raises.
   */
  function Step(c: Consts, m: MathLib, sm: ShipMethods, s: Snapshot, keys: Keys): Option<Snapshot>
    requires c.Valid() && m.Valid() && sm.Valid() && WellFormed(s)
  {
    var s1 := s.(fireRate := s.fireRate + 1);
    if s1.ship.None? then Rest(c, m, s1, keys)
    else
      var (ended, s2) := ShipPhase(c, m, sm, s1, keys);
      if ended then Some(s2) else Rest(c, m, s2, keys)
  }

  /**
   * The ship's part of update: the ship steers and moves, then the asteroids
   * move one by one, each checked against it, then the UFO is checked. The
   * flag says whether a collision ended the frame; when none did, the wave
   * that goes on is well formed.
   */
  function ShipPhase(c: Consts, m: MathLib, sm: ShipMethods, s: Snapshot, keys: Keys): (r: (bool, Snapshot))
    requires c.Valid() && m.Valid() && sm.Valid() && WellFormed(s) && s.ship.Some?
    ensures !r.0 ==> WellFormed(r.1)
  {
    var sh := MoveShip(sm, Steer(sm, s.ship.value, keys));
    ShipStepKeepsUnit(sm, s.ship.value, keys);
    var moved := MoveAll(c, s.asteroids);
    match FirstHit(c, m, moved, ShipBody(sh.x, sh.y))
    case Some(k) =>
      UnitNonZero(sh.facing);
      (true, s.(ship := None, lives := s.lives - 1,
                asteroids := moved[..k] + s.asteroids[k + 1..] + Fragments(c, m, moved[k], ShipReference(sh))))
    case None =>
      if s.ufo.Some? && UfoCollides(c, m, s.ufo.value, ShipBody(sh.x, sh.y)) then
        (true, s.(ship := None, asteroids := moved, lives := s.lives - 1, ufoLives := s.ufoLives - 1))
      else
        (false, s.(ship := Some(sh), asteroids := moved))
  }

  /** ShipPhase when moved asteroid k is the first to hit the ship. */
  lemma ShipPhaseHit(c: Consts, m: MathLib, sm: ShipMethods, s: Snapshot, keys: Keys, k: nat)
    requires c.Valid() && m.Valid() && sm.Valid() && WellFormed(s) && s.ship.Some?
    requires var sh := MoveShip(sm, Steer(sm, s.ship.value, keys));
      FirstHit(c, m, MoveAll(c, s.asteroids), ShipBody(sh.x, sh.y)) == Some(k)
    ensures var sh := MoveShip(sm, Steer(sm, s.ship.value, keys));
      var moved := MoveAll(c, s.asteroids);
      && k < |moved| && IsUnit(sh.facing) && ShipReference(sh) != Zero
      && ShipPhase(c, m, sm, s, keys)
         == (true, s.(ship := None, lives := s.lives - 1,
                      asteroids := moved[..k] + s.asteroids[k + 1..] + Fragments(c, m, moved[k], ShipReference(sh))))
  {
    ShipStepKeepsUnit(sm, s.ship.value, keys);
    UnitNonZero(MoveShip(sm, Steer(sm, s.ship.value, keys)).facing);
  }

  /** ShipPhase when no moved asteroid hits the ship. */
  lemma ShipPhaseMiss(c: Consts, m: MathLib, sm: ShipMethods, s: Snapshot, keys: Keys)
    requires c.Valid() && m.Valid() && sm.Valid() && WellFormed(s) && s.ship.Some?
    requires var sh := MoveShip(sm, Steer(sm, s.ship.value, keys));
      FirstHit(c, m, MoveAll(c, s.asteroids), ShipBody(sh.x, sh.y)).None?
    ensures var sh := MoveShip(sm, Steer(sm, s.ship.value, keys));
      var moved := MoveAll(c, s.asteroids);
      ShipPhase(c, m, sm, s, keys)
        == if s.ufo.Some? && UfoCollides(c, m, s.ufo.value, ShipBody(sh.x, sh.y))
           then (true, s.(ship := None, asteroids := moved, lives := s.lives - 1, ufoLives := s.ufoLives - 1))
           else (false, s.(ship := Some(sh), asteroids := moved))
  {
  }

  /** The part of a frame after the ship's checks keeps what WellFormed asks and never touches the lives. */
  lemma RestFacts(c: Consts, m: MathLib, s: Snapshot, keys: Keys)
    requires c.Valid() && m.Valid() && WellFormed(s)
    requires Rest(c, m, s, keys).Some?
    ensures var r := Rest(c, m, s, keys).value;
      && WellFormed(r) && r.ship == s.ship && r.lives == s.lives && r.ufoLives <= s.ufoLives
      && (r.ufo.Some? ==> r.ufoLives >= 1)
      && (r.fireRate == s.fireRate || (r.fireRate == 0 && s.ship.Some? && keys.spacebar && s.fireRate >= c.bulletRate))
      && (s.ship.None? ==> multiset(r.bullets) <= multiset(s.bullets))
  {
    var a := Arm(c, s, keys);
    ArmKeepsMoving(c, s, keys);
    PassFrame(c, m, a, 0);
    PassBullets(c, m, a, 0);
    PassKeepsBullets(c, m, a, 0);
    var p := Pass(c, m, a, 0).value;
    assert Moving(p.bullets) by {
      forall b | b in p.bullets ensures b.vel != Zero {
        assert multiset(p.bullets)[b] > 0;
        assert multiset(a.bullets)[b] > 0;
      }
    }
  }

  /**
   * A frame keeps the wave well formed. The ship is lost exactly when a life
   * is lost: a frame that starts with a ship either keeps it and the lives, or
   * loses it and one life; a frame without a ship neither gets one nor loses a
   * life. The fire counter goes up by one, or restarts at zero after a shot.
   */
  lemma StepFacts(c: Consts, m: MathLib, sm: ShipMethods, s: Snapshot, keys: Keys)
    requires c.Valid() && m.Valid() && sm.Valid() && WellFormed(s)
    requires Step(c, m, sm, s, keys).Some?
    ensures var r := Step(c, m, sm, s, keys).value;
      && WellFormed(r)
      && (s.ship.Some? ==> (r.ship.Some? && r.lives == s.lives) || (r.ship.None? && r.lives == s.lives - 1))
      && (s.ship.None? ==> r.ship.None? && r.lives == s.lives)
      && (r.fireRate == s.fireRate + 1
          || (r.fireRate == 0 && s.ship.Some? && keys.spacebar && s.fireRate + 1 >= c.bulletRate))
      && r.ufoLives <= s.ufoLives
  {
    var s1 := s.(fireRate := s.fireRate + 1);
    StepOf(c, m, sm, s, s1, keys);
    if s1.ship.None? {
      RestFacts(c, m, s1, keys);
    } else {
      var sh := MoveShip(sm, Steer(sm, s1.ship.value, keys));
      ShipStepKeepsUnit(sm, s1.ship.value, keys);
      var moved := MoveAll(c, s1.asteroids);
      match FirstHit(c, m, moved, ShipBody(sh.x, sh.y))
      case Some(k) =>
        ShipPhaseHit(c, m, sm, s1, keys, k);
      case None =>
        ShipPhaseMiss(c, m, sm, s1, keys);
        if !(s1.ufo.Some? && UfoCollides(c, m, s1.ufo.value, ShipBody(sh.x, sh.y))) {
          RestFacts(c, m, s1.(ship := Some(sh), asteroids := moved), keys);
        }
    }
  }

  /** A frame that does not raise keeps the wave well formed. */
  lemma StepKeepsWellFormed(c: Consts, m: MathLib, sm: ShipMethods, s: Snapshot, keys: Keys)
    requires c.Valid() && m.Valid() && sm.Valid() && WellFormed(s)
    requires Step(c, m, sm, s, keys).Some?
    ensures WellFormed(Step(c, m, sm, s, keys).value)
  {
    StepFacts(c, m, sm, s, keys);
  }

  /** One frame, one level down: the fire counter goes up, then the ship's part, then the rest. */
  lemma StepOf(c: Consts, m: MathLib, sm: ShipMethods, s: Snapshot, s1: Snapshot, keys: Keys)
    requires c.Valid() && m.Valid() && sm.Valid() && WellFormed(s)
    requires s1 == s.(fireRate := s.fireRate + 1)
    ensures WellFormed(s1)
    ensures s1.ship.None? ==> Step(c, m, sm, s, keys) == Rest(c, m, s1, keys)
    ensures s1.ship.Some? && ShipPhase(c, m, sm, s1, keys).0 ==>
      Step(c, m, sm, s, keys) == Some(ShipPhase(c, m, sm, s1, keys).1)
    ensures s1.ship.Some? && !ShipPhase(c, m, sm, s1, keys).0 ==>
      Step(c, m, sm, s, keys) == Rest(c, m, ShipPhase(c, m, sm, s1, keys).1, keys)
  {
  }

  /**
   * An asteroid that hits the ship: the first asteroid (after moving) that
   * overlaps it is replaced by its pieces at the end of the list, the asteroids
   * before it have moved and the ones after it have not, a life is lost, the
   * ship is gone, and neither the bullets nor the UFO take their turn.
   */
  lemma AsteroidHitsShip(c: Consts, m: MathLib, sm: ShipMethods, s: Snapshot, keys: Keys, k: nat)
    requires c.Valid() && m.Valid() && sm.Valid() && WellFormed(s) && s.ship.Some?
    requires var sh := MoveShip(sm, Steer(sm, s.ship.value, keys));
      && k < |s.asteroids| && AsteroidCollides(c, m, MoveAsteroid(c, s.asteroids[k]), ShipBody(sh.x, sh.y))
      && forall j :: 0 <= j < k ==> !AsteroidCollides(c, m, MoveAsteroid(c, s.asteroids[j]), ShipBody(sh.x, sh.y))
    ensures IsUnit(MoveShip(sm, Steer(sm, s.ship.value, keys)).facing)
    ensures var sh := MoveShip(sm, Steer(sm, s.ship.value, keys));
      Step(c, m, sm, s, keys)
        == Some(s.(ship := None, lives := s.lives - 1, fireRate := s.fireRate + 1,
                   asteroids := MoveAll(c, s.asteroids)[..k] + s.asteroids[k + 1..]
                                + Fragments(c, m, MoveAsteroid(c, s.asteroids[k]), ShipReference(sh))))
  {
    var sh := MoveShip(sm, Steer(sm, s.ship.value, keys));
    ShipStepKeepsUnit(sm, s.ship.value, keys);
    FirstHitAfterMove(c, m, s.asteroids, ShipBody(sh.x, sh.y), k);
    StepShipHit(c, m, sm, s, keys, k);
  }

  /** A frame in which the moved asteroid at index k is the first to hit the moved ship. */
  lemma StepShipHit(c: Consts, m: MathLib, sm: ShipMethods, s: Snapshot, keys: Keys, k: nat)
    requires c.Valid() && m.Valid() && sm.Valid() && WellFormed(s) && s.ship.Some?
    requires var sh := MoveShip(sm, Steer(sm, s.ship.value, keys));
      FirstHit(c, m, MoveAll(c, s.asteroids), ShipBody(sh.x, sh.y)) == Some(k)
    ensures var sh := MoveShip(sm, Steer(sm, s.ship.value, keys));
      var moved := MoveAll(c, s.asteroids);
      && k < |moved| && sh.facing != Zero
      && Step(c, m, sm, s, keys)
         == Some(s.(ship := None, lives := s.lives - 1, fireRate := s.fireRate + 1,
                    asteroids := moved[..k] + s.asteroids[k + 1..] + Fragments(c, m, moved[k], ShipReference(sh))))
  {
    ShipStepKeepsUnit(sm, s.ship.value, keys);
    var sh := MoveShip(sm, Steer(sm, s.ship.value, keys));
    UnitNonZero(sh.facing);
  }

  /** The first asteroid that hits o once every asteroid has moved. */
  lemma FirstHitAfterMove(c: Consts, m: MathLib, asts: seq<Asteroid>, o: Body, k: nat)
    requires k < |asts| && AsteroidCollides(c, m, MoveAsteroid(c, asts[k]), o)
    requires forall j :: 0 <= j < k ==> !AsteroidCollides(c, m, MoveAsteroid(c, asts[j]), o)
    ensures FirstHit(c, m, MoveAll(c, asts), o) == Some(k) && MoveAll(c, asts)[k] == MoveAsteroid(c, asts[k])
  {
    var moved := MoveAll(c, asts);
    assert moved[k] == MoveAsteroid(c, asts[k]);
    forall j | 0 <= j < k ensures !AsteroidCollides(c, m, moved[j], o) {
      assert moved[j] == MoveAsteroid(c, asts[j]);
    }
    FirstHitAt(c, m, moved, o, k);
  }

  /**
   * The UFO that hits the ship, when no asteroid does: a life and a UFO life
   * are lost, the ship is gone, every asteroid has moved, and neither the
   * bullets nor the UFO take their turn.
   */
  lemma UfoHitsShip(c: Consts, m: MathLib, sm: ShipMethods, s: Snapshot, keys: Keys)
    requires c.Valid() && m.Valid() && sm.Valid() && WellFormed(s) && s.ship.Some? && s.ufo.Some?
    requires var sh := MoveShip(sm, Steer(sm, s.ship.value, keys));
      && (forall j :: 0 <= j < |s.asteroids| ==> !AsteroidCollides(c, m, MoveAsteroid(c, s.asteroids[j]), ShipBody(sh.x, sh.y)))
      && UfoCollides(c, m, s.ufo.value, ShipBody(sh.x, sh.y))
    ensures Step(c, m, sm, s, keys) == Some(s.(ship := None, asteroids := MoveAll(c, s.asteroids),
      lives := s.lives - 1, ufoLives := s.ufoLives - 1, fireRate := s.fireRate + 1))
  {
    var sh := MoveShip(sm, Steer(sm, s.ship.value, keys));
    var moved := MoveAll(c, s.asteroids);
    assert FirstHit(c, m, moved, ShipBody(sh.x, sh.y)).None? by {
      forall j | 0 <= j < |moved| ensures !AsteroidCollides(c, m, moved[j], ShipBody(sh.x, sh.y)) {
        assert moved[j] == MoveAsteroid(c, s.asteroids[j]);
      }
    }
  }

  /**
   * Without a ship nothing moves and nothing is fired: no asteroid moves, the
   * bullets that remain are bullets that were there, unmoved, and the ship
   * stays away.
   */
  lemma NoShipNoMotion(c: Consts, m: MathLib, sm: ShipMethods, s: Snapshot, keys: Keys)
    requires c.Valid() && m.Valid() && sm.Valid() && WellFormed(s) && s.ship.None?
    requires Step(c, m, sm, s, keys).Some?
    ensures var r := Step(c, m, sm, s, keys).value;
      && r.ship.None? && multiset(r.bullets) <= multiset(s.bullets) && r.fireRate == s.fireRate + 1
      && Step(c, m, sm, s, keys) == Rest(c, m, s.(fireRate := s.fireRate + 1), keys)
      && Arm(c, s.(fireRate := s.fireRate + 1), keys) == s.(fireRate := s.fireRate + 1)
  {
    RestFacts(c, m, s.(fireRate := s.fireRate + 1), keys);
  }
}
