/** The game-progression record (src/game.hpp) and the free functions that update the global `g_Game` (src/game.cpp). */
module Games {
  import opened Common

  const MIN_METEORS: int := 3
  const MAX_METEORS: int := 5
  const MIN_METEOR_SIZE: int := 20
  const MAX_METEOR_SIZE: int := 50
  const METEOR_DMG: real := 0.1
  const METEOR_CORE_SIZE: real := 10.0
  const METEOR_CORE_HEALTH: real := 0.1

  const SPACESHIP_INITIAL_HEALTH: real := 10.0
  const SPACESHIP_INITIAL_LIVES: real := 3.0
  const WEAPON_SIZE: real := 10.0
  const WEAPON_DMG: real := 1.0
  const WEAPON_MAX_DISTANCE: real := 60.0

  /** The per-level meteor data. */
  datatype MeteorData = MeteorData(minMeteors: int, maxMeteors: int, minMeteorSize: int, maxMeteorSize: int,
                                   meteorDmg: real, meteorCoreSize: real, meteorCoreHealth: real)

  /** The weapon data. */
  datatype WeaponData = WeaponData(dmg: real, size: real, maxDistance: real)

  /** `int lives = SPACESHIP_INITIAL_LIVES`: the float constant converted to int, which is exactly three. */
  function InitialLives(): (lives: int)
    ensures lives == 3
  {
    TruncToInt(SPACESHIP_INITIAL_LIVES)
  }

  /** The meteor defaults: counts 3 to 5, sizes 20 to 50, damage 0.1, core size 10, core health 0.1. */
  function DefaultMeteors(): (m: MeteorData)
    ensures m.minMeteors == 3 && m.maxMeteors == 5 && m.minMeteorSize == 20 && m.maxMeteorSize == 50
    ensures m.meteorDmg == 0.1 && m.meteorCoreSize == 10.0 && m.meteorCoreHealth == 0.1
    ensures m.minMeteors <= m.maxMeteors && m.minMeteorSize <= m.maxMeteorSize
  {
    MeteorData(MIN_METEORS, MAX_METEORS, MIN_METEOR_SIZE, MAX_METEOR_SIZE, METEOR_DMG, METEOR_CORE_SIZE, METEOR_CORE_HEALTH)
  }

  /** The weapon defaults: damage 1, size 10, reach 60. */
  function DefaultWeapon(): (w: WeaponData)
    ensures w.dmg == 1.0 && w.size == 10.0 && w.maxDistance == 60.0
  {
    WeaponData(WEAPON_DMG, WEAPON_SIZE, WEAPON_MAX_DISTANCE)
  }

  /** `struct Game` as the one global instance `g_Game`. */
  class Game {
    var level: int
    var cores: int
    var score: int
    var maxScore: int
    var lives: int
    var health: real
    var meteors: MeteorData
    var weapon: WeaponData

    /**
     * The meteor limits are those of the current level: one more meteor, and one more unit of size, per
     * level after the first. NextLevel establishes it; every other operation keeps it.
     */
    ghost predicate LevelScaled()
      reads this
    {
      meteors.maxMeteors == MAX_METEORS + level - 1 && meteors.maxMeteorSize == MAX_METEOR_SIZE + level - 1
    }

    /**
     * `Game::Game g_Game`: static storage zero-initialises the fields without initializer (level, cores,
     * score, max score); the others take their default member initializers.
     */
    constructor ()
      ensures level == 0 && cores == 0 && score == 0 && maxScore == 0
      ensures lives == 3 && health == 10.0
      ensures meteors == DefaultMeteors() && weapon == DefaultWeapon()
    {
      level, cores, score, maxScore := 0, 0, 0, 0;
      lives := InitialLives();
      health := SPACESHIP_INITIAL_HEALTH;
      meteors := DefaultMeteors();
      weapon := DefaultWeapon();
    }

    /** `InitGame` has an empty body. */
    method InitGame()
      ensures unchanged(this)
    {
    }

    /** `NextLevel`: one level up; meteor limits grow with the new level, cores reset, health refills. */
    method NextLevel()
      modifies this
      ensures level == old(level) + 1
      ensures meteors == old(meteors).(maxMeteors := MAX_METEORS + level - 1, maxMeteorSize := MAX_METEOR_SIZE + level - 1)
      ensures cores == 0 && health == SPACESHIP_INITIAL_HEALTH
      ensures score == old(score) && maxScore == old(maxScore) && lives == old(lives) && weapon == old(weapon)
      ensures LevelScaled()
    {
      level := level + 1;
      meteors := meteors.(maxMeteors := MAX_METEORS + level - 1, maxMeteorSize := MAX_METEOR_SIZE + level - 1);
      cores := 0;
      health := SPACESHIP_INITIAL_HEALTH;
    }

    /** `ResetSpaceship`: health back to its initial value, nothing else. */
    method ResetSpaceship()
      modifies this
      ensures health == SPACESHIP_INITIAL_HEALTH
      ensures level == old(level) && cores == old(cores) && score == old(score) && maxScore == old(maxScore)
      ensures lives == old(lives) && meteors == old(meteors) && weapon == old(weapon)
      ensures old(LevelScaled()) ==> LevelScaled()
    {
      health := SPACESHIP_INITIAL_HEALTH;
    }

    /** `MineMeteor`: one point per hit. */
    method MineMeteor()
      modifies this
      ensures score == old(score) + 1
      ensures level == old(level) && cores == old(cores) && maxScore == old(maxScore)
      ensures lives == old(lives) && health == old(health) && meteors == old(meteors) && weapon == old(weapon)
      ensures old(LevelScaled()) ==> LevelScaled()
    {
      score := score + 1;
    }

    /** `DmgSpaceship(dmg)`: no clamp, so health may drop below zero. */
    method DmgSpaceship(dmg: real)
      modifies this
      ensures health == old(health) - dmg
      ensures dmg > old(health) ==> health < 0.0
      ensures level == old(level) && cores == old(cores) && score == old(score) && maxScore == old(maxScore)
      ensures lives == old(lives) && meteors == old(meteors) && weapon == old(weapon)
      ensures old(LevelScaled()) ==> LevelScaled()
    {
      health := health - dmg;
    }

    /** `LoseLife`: no floor, so lives may drop below zero. */
    method LoseLife()
      modifies this
      ensures lives == old(lives) - 1
      ensures old(lives) <= 0 ==> lives < 0
      ensures level == old(level) && cores == old(cores) && score == old(score) && maxScore == old(maxScore)
      ensures health == old(health) && meteors == old(meteors) && weapon == old(weapon)
      ensures old(LevelScaled()) ==> LevelScaled()
    {
      lives := lives - 1;
    }

    /** `GatherCore`: one more core. */
    method GatherCore()
      modifies this
      ensures cores == old(cores) + 1
      ensures level == old(level) && score == old(score) && maxScore == old(maxScore)
      ensures lives == old(lives) && health == old(health) && meteors == old(meteors) && weapon == old(weapon)
      ensures old(LevelScaled()) ==> LevelScaled()
    {
      cores := cores + 1;
    }
  }
}
