/**
 * The game's constants (the module consts.py, which is not part of this
 * model). They are fields of one record so that every property is proved for
 * all admissible values, not for one particular choice of numbers.
 */
module Constants {

  datatype Consts = Consts(
    gameWidth: int,        // GAME_WIDTH
    gameHeight: int,       // GAME_HEIGHT
    deadZone: real,        // DEAD_ZONE
    shipRadius: real,      // SHIP_RADIUS
    bulletRadius: real,    // BULLET_RADIUS
    ufoRadius: real,       // UFO_RADIUS
    smallRadius: real,     // SMALL_RADIUS
    mediumRadius: real,    // MEDIUM_RADIUS
    largeRadius: real,     // LARGE_RADIUS
    smallSpeed: real,      // SMALL_SPEED
    mediumSpeed: real,     // MEDIUM_SPEED
    largeSpeed: real,      // LARGE_SPEED
    bulletSpeed: real,     // BULLET_SPEED
    ufoSpeed: real,        // UFO_SPEED
    bulletRate: int,       // BULLET_RATE, in frames
    shipLives: int,        // SHIP_LIVES
    ufoLives: int          // UFO_LIVES
  )
  {
    /** Sizes, radii and speeds are positive; the player starts with at least one life. */
    predicate Valid()
    {
      && gameWidth > 0 && gameHeight > 0 && deadZone >= 0.0
      && shipRadius > 0.0 && bulletRadius > 0.0 && ufoRadius > 0.0
      && smallRadius > 0.0 && mediumRadius > 0.0 && largeRadius > 0.0
      && smallSpeed > 0.0 && mediumSpeed > 0.0 && largeSpeed > 0.0
      && bulletSpeed > 0.0 && ufoSpeed > 0.0
      && bulletRate >= 0 && shipLives >= 1 && ufoLives >= 0
    }

    /** The horizontal extent of the playing field including both dead zones. */
    function XSpan(): real
    {
      gameWidth as real + 2.0 * deadZone
    }

    function YSpan(): real
    {
      gameHeight as real + 2.0 * deadZone
    }
  }
}
