/**
 * The game's model objects: bullets, asteroids, the UFO and the markers that
 * show its remaining lives, and the player's ship. Each object is a value; the
 * wave replaces an object in its list where the game moves it in place.
 */
module Models {
  import opened Geometry
  import opened Constants

  /** The three asteroid size tags, 'small', 'medium' and 'large'. */
  datatype Size = Small | Medium | Large

  /** A bullet: its centre and its fixed velocity. */
  datatype Bullet = Bullet(x: real, y: real, vel: Vec)

  /** An asteroid: its centre, its size tag and its fixed velocity. */
  datatype Asteroid = Asteroid(x: real, y: real, size: Size, vel: Vec)

  /** The UFO (an AlienUFO when `alien` holds): its centre and its fixed velocity. */
  datatype Ufo = Ufo(x: real, y: real, vel: Vec, alien: bool)

  /** One of the markers (UFOLives) drawn below the UFO, one per remaining UFO life. */
  datatype Marker = Marker(x: real, y: real, vel: Vec)

  /** The player's ship: centre, velocity and the unit vector it faces. */
  datatype Ship = Ship(x: real, y: real, vel: Vec, facing: Vec)

  /**
   * The ship's own methods, whose code is not part of this model: turning,
   * thrust, its wrap at the screen edges, and its construction from a level's
   * position and angle (in degrees, converted by the constructor). All that is
   * assumed is that the ship is placed where asked and keeps facing along a
   * unit vector.
   */
  datatype ShipMethods = ShipMethods(
    turnLeft: Ship -> Ship,
    turnRight: Ship -> Ship,
    applyThrust: Ship -> Ship,
    wrap: Ship -> Ship,
    create: (real, real, real) -> Ship)
  {
    ghost predicate Valid()
    {
      && (forall sh: Ship :: IsUnit(sh.facing) ==> IsUnit(turnLeft(sh).facing))
      && (forall sh: Ship :: IsUnit(sh.facing) ==> IsUnit(turnRight(sh).facing))
      && (forall sh: Ship :: IsUnit(sh.facing) ==> IsUnit(applyThrust(sh).facing))
      && (forall sh: Ship :: IsUnit(sh.facing) ==> IsUnit(wrap(sh).facing))
      && (forall x: real, y: real, a: real :: create(x, y, a).x == x && create(x, y, a).y == y && IsUnit(create(x, y, a).facing))
    }
  }

  /** The radius belonging to a size tag; any tag but small and medium counts as large. */
  function Radius(c: Consts, size: Size): real
  {
    match size
    case Small => c.smallRadius
    case Medium => c.mediumRadius
    case Large => c.largeRadius
  }

  function Speed(c: Consts, size: Size): real
  {
    match size
    case Small => c.smallSpeed
    case Medium => c.mediumSpeed
    case Large => c.largeSpeed
  }

  lemma ScaleTwice(l: real, k: real, u: Vec)
    ensures Scale(l, Scale(k, u)) == Scale(k, Scale(l, u))
  {
    assert l * (k * u.x) == k * (l * u.x);
    assert l * (k * u.y) == k * (l * u.y);
  }

  /**
   * The velocity an asteroid is built with: none for the direction (0, 0),
   * otherwise the direction normalized and scaled by the speed of its size.
   * The result points along the direction and its length is that speed.
   */
  function AsteroidVelocity(c: Consts, m: MathLib, size: Size, d: Vec): (v: Vec)
    requires m.Valid()
    ensures d == Zero ==> v == Zero
    ensures d != Zero ==> v.x * v.x + v.y * v.y == Speed(c, size) * Speed(c, size)
    ensures d != Zero ==> Scale(m.Length(d), v) == Scale(Speed(c, size), d)
  {
    if d.x == 0.0 && d.y == 0.0 then Zero
    else
      var u := Normalize(m, d);
      ScaledUnit(Speed(c, size), u);
      ScaleTwice(m.Length(d), Speed(c, size), u);
      Scale(Speed(c, size), u)
  }

  /** Asteroid.__init__: an asteroid at (x, y) moving along direction d. */
  function NewAsteroid(c: Consts, m: MathLib, x: real, y: real, size: Size, d: Vec): Asteroid
    requires m.Valid()
  {
    Asteroid(x, y, size, AsteroidVelocity(c, m, size, d))
  }

  /**
   * The wrap shared by asteroids, the UFO and its markers along one axis whose
   * visible extent is [0, extent]: a coordinate beyond the dead zone on one side
   * re-enters on the other side, shifted by the extent plus both dead zones.
   */
  function Wrap(v: real, extent: real, dz: real): real
  {
    if v < -dz then v + (extent + 2.0 * dz)
    else if v > extent + dz then v - (extent + 2.0 * dz)
    else v
  }

  function WrapX(c: Consts, x: real): real
  {
    Wrap(x, c.gameWidth as real, c.deadZone)
  }

  function WrapY(c: Consts, y: real): real
  {
    Wrap(y, c.gameHeight as real, c.deadZone)
  }

  predicate InBand(v: real, extent: real, dz: real)
  {
    -dz <= v <= extent + dz
  }

  /** A wrap moves a coordinate by a whole span or not at all. */
  lemma WrapShift(v: real, extent: real, dz: real)
    ensures var w := Wrap(v, extent, dz);
      w == v || w == v + (extent + 2.0 * dz) || w == v - (extent + 2.0 * dz)
    ensures InBand(v, extent, dz) ==> Wrap(v, extent, dz) == v
  {
  }

  /**
   * A coordinate at most one span beyond the band lands in the band after one
   * wrap, and a second wrap changes nothing.
   */
  lemma WrapLands(v: real, extent: real, dz: real)
    requires extent > 0.0 && dz >= 0.0
    requires -dz - (extent + 2.0 * dz) <= v <= extent + dz + (extent + 2.0 * dz)
    ensures InBand(Wrap(v, extent, dz), extent, dz)
    ensures Wrap(Wrap(v, extent, dz), extent, dz) == Wrap(v, extent, dz)
  {
  }

  /** A step no longer than a span from inside the band stays in the band after the wrap. */
  lemma StepWrapsIntoBand(v: real, step: real, extent: real, dz: real)
    requires extent > 0.0 && dz >= 0.0
    ensures InBand(v, extent, dz) && -(extent + 2.0 * dz) <= step <= extent + 2.0 * dz
      ==> InBand(Wrap(v + step, extent, dz), extent, dz)
  {
    if InBand(v, extent, dz) && -(extent + 2.0 * dz) <= step <= extent + 2.0 * dz {
      WrapLands(v + step, extent, dz);
    }
  }

  /** The objects an asteroid or the UFO can be checked against. */
  datatype Body = ShipBody(x: real, y: real) | BulletBody(x: real, y: real) | OtherBody(x: real, y: real)

  /**
   * Asteroid.collision_check: the centres are closer than the sum of the two
   * radii; only ships and bullets can collide.
   */
  function AsteroidCollides(c: Consts, m: MathLib, a: Asteroid, o: Body): bool
  {
    var d := Distance(m, a.x, a.y, o.x, o.y);
    match o
    case ShipBody(_, _) => d < Radius(c, a.size) + c.shipRadius
    case BulletBody(_, _) => d < Radius(c, a.size) + c.bulletRadius
    case OtherBody(_, _) => false
  }

  /** The radius of the object an asteroid or the UFO is checked against. */
  function BodyRadius(c: Consts, o: Body): real
  {
    match o
    case ShipBody(_, _) => c.shipRadius
    case BulletBody(_, _) => c.bulletRadius
    case OtherBody(_, _) => 0.0
  }

  /**
   * An asteroid collides with a ship or bullet exactly when the squared
   * distance between the centres is below the squared sum of the radii, and
   * never with anything else; swapping the centres changes nothing.
   */
  lemma AsteroidCollisionGeometry(c: Consts, m: MathLib, a: Asteroid, o: Body)
    requires c.Valid() && m.Valid()
    ensures !o.OtherBody? ==>
      (AsteroidCollides(c, m, a, o) <==>
        (a.x - o.x) * (a.x - o.x) + (a.y - o.y) * (a.y - o.y)
          < (Radius(c, a.size) + BodyRadius(c, o)) * (Radius(c, a.size) + BodyRadius(c, o)))
    ensures o.OtherBody? ==> !AsteroidCollides(c, m, a, o)
    ensures AsteroidCollides(c, m, a, o) <==>
      (!o.OtherBody? && Distance(m, o.x, o.y, a.x, a.y) < Radius(c, a.size) + BodyRadius(c, o))
  {
    DistanceSymmetric(m, a.x, a.y, o.x, o.y);
    if !o.OtherBody? {
      CloserThan(m, a.x, a.y, o.x, o.y, Radius(c, a.size) + BodyRadius(c, o));
    }
  }

  /**
   * The velocity the UFO is built with from the two random components dx and
   * dy in [0, 1): normalized and scaled by UFO_SPEED. Both components stay
   * non-negative, the length is UFO_SPEED and the direction is (dx, dy).
   */
  function UfoVelocity(c: Consts, m: MathLib, dx: real, dy: real): (v: Vec)
    requires c.Valid() && m.Valid()
    requires 0.0 <= dx && 0.0 <= dy && (dx != 0.0 || dy != 0.0)
    ensures v.x >= 0.0 && v.y >= 0.0
    ensures v.x * v.x + v.y * v.y == c.ufoSpeed * c.ufoSpeed
    ensures Scale(m.Length(Vec(dx, dy)), v) == Scale(c.ufoSpeed, Vec(dx, dy))
  {
    var d := Vec(dx, dy);
    var u := Normalize(m, d);
    LengthPositive(m, d);
    NonNegativeQuotient(dx, m.Length(d));
    NonNegativeQuotient(dy, m.Length(d));
    ScaledUnit(c.ufoSpeed, u);
    ScaleTwice(m.Length(d), c.ufoSpeed, u);
    NonNegativeProduct(c.ufoSpeed, u.x);
    NonNegativeProduct(c.ufoSpeed, u.y);
    Scale(c.ufoSpeed, u)
  }

  lemma NonNegativeQuotient(a: real, l: real)
    requires a >= 0.0 && l > 0.0
    ensures a / l >= 0.0
  {
  }

  lemma NonNegativeProduct(k: real, a: real)
    requires k >= 0.0 && a >= 0.0
    ensures k * a >= 0.0
  {
  }

  /** UFO.__init__ and AlienUFO.__init__: a UFO at (x, y) with the velocity above. */
  function NewUfo(c: Consts, m: MathLib, x: real, y: real, alien: bool, dx: real, dy: real): Ufo
    requires c.Valid() && m.Valid()
    requires 0.0 <= dx && 0.0 <= dy && (dx != 0.0 || dy != 0.0)
  {
    Ufo(x, y, UfoVelocity(c, m, dx, dy), alien)
  }

  /**
   * update_UFO: the UFO moves by its velocity and then wraps along each axis.
   * It keeps its velocity, each coordinate moves by the velocity plus a whole
   * span or nothing, and a UFO inside the band whose speed is below a span
   * stays inside the band.
   */
  function UpdateUfo(c: Consts, u: Ufo): (r: Ufo)
    requires c.Valid()
    ensures r.vel == u.vel && r.alien == u.alien
    ensures r.x == u.x + u.vel.x || r.x == u.x + u.vel.x + c.XSpan() || r.x == u.x + u.vel.x - c.XSpan()
    ensures r.y == u.y + u.vel.y || r.y == u.y + u.vel.y + c.YSpan() || r.y == u.y + u.vel.y - c.YSpan()
    ensures InBand(u.x, c.gameWidth as real, c.deadZone) && -c.XSpan() <= u.vel.x <= c.XSpan()
      ==> InBand(r.x, c.gameWidth as real, c.deadZone)
    ensures InBand(u.y, c.gameHeight as real, c.deadZone) && -c.YSpan() <= u.vel.y <= c.YSpan()
      ==> InBand(r.y, c.gameHeight as real, c.deadZone)
  {
    WrapShift(u.x + u.vel.x, c.gameWidth as real, c.deadZone);
    WrapShift(u.y + u.vel.y, c.gameHeight as real, c.deadZone);
    StepWrapsIntoBand(u.x, u.vel.x, c.gameWidth as real, c.deadZone);
    StepWrapsIntoBand(u.y, u.vel.y, c.gameHeight as real, c.deadZone);
    Ufo(WrapX(c, u.x + u.vel.x), WrapY(c, u.y + u.vel.y), u.vel, u.alien)
  }

  /**
   * One marker's step in update_UFOLives: it moves by the UFO's velocity and
   * then wraps like the UFO does.
   */
  function MoveMarker(c: Consts, mk: Marker, vel: Vec): (r: Marker)
    requires c.Valid()
    ensures r.vel == mk.vel
    ensures r.x == mk.x + vel.x || r.x == mk.x + vel.x + c.XSpan() || r.x == mk.x + vel.x - c.XSpan()
    ensures r.y == mk.y + vel.y || r.y == mk.y + vel.y + c.YSpan() || r.y == mk.y + vel.y - c.YSpan()
  {
    WrapShift(mk.x + vel.x, c.gameWidth as real, c.deadZone);
    WrapShift(mk.y + vel.y, c.gameHeight as real, c.deadZone);
    Marker(WrapX(c, mk.x + vel.x), WrapY(c, mk.y + vel.y), mk.vel)
  }
}
