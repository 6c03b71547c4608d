/** The value of each entity of the game (projectile, enemy, player) and what one frame, or one
    action, does to it. The classes of module Shooter are proved to follow these functions. */
module Bodies {
  import opened Geometry
  import Lists
  import HeldKeys

  // ---------------------------------------------------------------- Projectile

  const ProjectileWidth: real := 10.0
  const ProjectileHeight: real := 3.0
  const ProjectileSpeed: real := 3.0

  /** A projectile: its corner and its deletion flag (its size and speed are the constants above). */
  datatype ProjectileState = ProjectileState(x: real, y: real, markedForDeletion: bool)

  function ProjectileRect(p: ProjectileState): Rect
  {
    Rect(p.x, p.y, ProjectileWidth, ProjectileHeight)
  }

  /** The filter condition the player's projectile list is cleaned with. */
  predicate ProjectileGone(p: ProjectileState)
  {
    p.markedForDeletion
  }

  /** Projectile.update: move right by the speed; flag once past 80% of the arena width. */
  function ProjectileStep(p: ProjectileState, gameWidth: real): ProjectileState
  {
    var x := p.x + ProjectileSpeed;
    ProjectileState(x, p.y, p.markedForDeletion || x > gameWidth * 0.8)
  }

  /** n successive calls of Projectile.update. */
  function Flight(p: ProjectileState, gameWidth: real, n: nat): ProjectileState
  {
    if n == 0 then p else ProjectileStep(Flight(p, gameWidth, n - 1), gameWidth)
  }

  /** After n updates a projectile has moved 3n to the right, and it is flagged exactly when it
      was flagged before or its last position is past 80% of the width (the x only grows, so
      an earlier crossing implies the last one). */
  lemma {:induction false} ProjectileFlight(p: ProjectileState, gameWidth: real, n: nat)
    ensures Flight(p, gameWidth, n).x == p.x + ProjectileSpeed * n as real
    ensures Flight(p, gameWidth, n).y == p.y
    ensures Flight(p, gameWidth, n).markedForDeletion
        <==> p.markedForDeletion || (n > 0 && p.x + ProjectileSpeed * n as real > gameWidth * 0.8)
  {
    if n > 0 {
      ProjectileFlight(p, gameWidth, n - 1);
    }
  }

  // ---------------------------------------------------------------- Enemy (Anguler)

  const EnemyWidth: real := 228.0 * 0.2
  const EnemyHeight: real := 169.0 * 0.2
  const EnemyLives: int := 5

  /** An enemy: corner, horizontal speed, lives left, the score it is worth, deletion flag. */
  datatype EnemyState = EnemyState(x: real, y: real, speedX: real, lives: int, score: nat, markedForDeletion: bool)

  function EnemyRect(e: EnemyState): Rect
  {
    Rect(e.x, e.y, EnemyWidth, EnemyHeight)
  }

  /** The filter condition the enemy list is cleaned with. */
  predicate EnemyGone(e: EnemyState)
  {
    e.markedForDeletion
  }

  /** Enemy.update: move by speedX; flag once wholly past the left edge. */
  function EnemyStep(e: EnemyState): EnemyState
  {
    var x := e.x + e.speedX;
    e.(x := x, markedForDeletion := e.markedForDeletion || x + EnemyWidth < 0.0)
  }

  /** The Anguler constructor (with the Enemy constructor it extends). The two Math.random()
      draws are the parameters speedDraw and yDraw. */
  function Anguler(gameWidth: real, gameHeight: real, speedDraw: real, yDraw: real): EnemyState
  {
    EnemyState(gameWidth, yDraw * (gameHeight * 0.9 - EnemyHeight), speedDraw * -1.5 - 0.5,
               EnemyLives, EnemyLives, false)
  }

  /** A new enemy sits on the right edge, unflagged, with 5 lives worth 5 points, a leftward
      speed in (-2.0, -0.5], and (when the arena leaves room) a y that keeps it inside the
      top 90% of the arena. */
  lemma SpawnSpec(gameWidth: real, gameHeight: real, speedDraw: real, yDraw: real)
    requires 0.0 <= speedDraw < 1.0 && 0.0 <= yDraw < 1.0
    ensures var e := Anguler(gameWidth, gameHeight, speedDraw, yDraw);
      && e.x == gameWidth
      && -2.0 < e.speedX <= -0.5
      && e.lives == 5 && e.score == 5
      && !e.markedForDeletion
      && (gameHeight * 0.9 - EnemyHeight >= 0.0 ==>
            0.0 <= e.y && (e.y + EnemyHeight < gameHeight * 0.9 || gameHeight * 0.9 == EnemyHeight))
  {
    var e := Anguler(gameWidth, gameHeight, speedDraw, yDraw);
    var room := gameHeight * 0.9 - EnemyHeight;
    assert e.y == yDraw * room;
    if room >= 0.0 {
      DrawScales(yDraw, room);
      assert 0.0 <= e.y <= room;
    }
  }

  /** A draw from [0, 1) scales a non-negative length into [0, length], strictly below a
      positive one. */
  lemma DrawScales(draw: real, length: real)
    requires 0.0 <= draw < 1.0 && 0.0 <= length
    ensures 0.0 <= draw * length <= length
    ensures 0.0 < length ==> draw * length < length
  {
    assert length - draw * length == (1.0 - draw) * length;
  }

  /** n successive calls of Enemy.update. */
  function EnemyFlight(e: EnemyState, n: nat): EnemyState
  {
    if n == 0 then e else EnemyStep(EnemyFlight(e, n - 1))
  }

  /** After n updates an enemy moving left (or standing) has moved n times its speed, in the
      same row, with the same speed and lives, and it is flagged exactly when it was flagged
      before or its last position is wholly past the left edge (the x never grows, so an
      earlier crossing implies the last one). */
  lemma {:induction false} EnemyFlightSpec(e: EnemyState, n: nat)
    requires e.speedX <= 0.0
    ensures EnemyFlight(e, n).x == e.x + e.speedX * n as real
    ensures EnemyFlight(e, n).y == e.y && EnemyFlight(e, n).speedX == e.speedX
    ensures EnemyFlight(e, n).lives == e.lives && EnemyFlight(e, n).score == e.score
    ensures EnemyFlight(e, n).markedForDeletion
        <==> e.markedForDeletion || (n > 0 && e.x + e.speedX * n as real + EnemyWidth < 0.0)
  {
    if n > 0 {
      EnemyFlightSpec(e, n - 1);
      assert e.speedX * n as real == e.speedX * (n - 1) as real + e.speedX;
    }
  }

  /** An enemy at least half a pixel per frame fast is flagged by its own updates once it has
      had the frames to cover its distance to the left edge plus its width. */
  lemma EnemyLeaves(e: EnemyState, n: nat)
    requires e.speedX <= -0.5 && 0 < n && e.x + EnemyWidth < 0.5 * n as real
    ensures EnemyFlight(e, n).markedForDeletion
  {
    EnemyFlightSpec(e, n);
    assert e.speedX * n as real <= -0.5 * n as real;
  }

  // ---------------------------------------------------------------- Player

  const PlayerWidth: real := 120.0
  const PlayerHeight: real := 190.0
  const PlayerX: real := 20.0
  const PlayerY: real := 100.0
  const MaxSpeed: real := 3.0
  /** Where shootTop places a new projectile, relative to the player's corner. */
  const MuzzleX: real := 88.0
  const MuzzleY: real := 30.0

  /** The player: corner, vertical speed and the projectiles it owns, oldest first. */
  datatype PlayerState = PlayerState(x: real, y: real, speedY: real, projectiles: seq<ProjectileState>)

  function PlayerRect(pl: PlayerState): Rect
  {
    Rect(pl.x, pl.y, PlayerWidth, PlayerHeight)
  }

  /** The Player constructor. */
  function NewPlayer(): PlayerState
  {
    PlayerState(PlayerX, PlayerY, 0.0, [])
  }

  /** The vertical speed Player.update picks from the held keys. */
  function SpeedFor(keys: seq<string>): real
  {
    if HeldKeys.Up in keys then -MaxSpeed
    else if HeldKeys.Down in keys then MaxSpeed
    else 0.0
  }

  /** The forEach over the projectiles in Player.update. */
  function StepAll(ps: seq<ProjectileState>, gameWidth: real): seq<ProjectileState>
  {
    seq(|ps|, i requires 0 <= i < |ps| => ProjectileStep(ps[i], gameWidth))
  }

  /** Player.update. */
  function PlayerStep(pl: PlayerState, keys: seq<string>, gameWidth: real): PlayerState
  {
    var speedY := SpeedFor(keys);
    PlayerState(pl.x, pl.y + speedY, speedY,
                Lists.Keep(StepAll(pl.projectiles, gameWidth), ProjectileGone))
  }

  /** Player.shootTop, with the game's ammo passed in and returned. */
  function ShootTop(pl: PlayerState, ammo: int): (PlayerState, int)
  {
    if ammo > 0 then
      (pl.(projectiles := pl.projectiles + [ProjectileState(pl.x + MuzzleX, pl.y + MuzzleY, false)]), ammo - 1)
    else (pl, ammo)
  }

  /** With ammo, shootTop appends exactly one unflagged projectile at (x+88, y+30), keeps the
      older ones, and spends exactly one round; with none it changes nothing. Ammo never goes
      negative and never grows. */
  lemma ShootTopSpec(pl: PlayerState, ammo: int)
    ensures var (pl', ammo') := ShootTop(pl, ammo);
      && pl'.x == pl.x && pl'.y == pl.y && pl'.speedY == pl.speedY
      && (ammo > 0 ==>
            && ammo' == ammo - 1
            && |pl'.projectiles| == |pl.projectiles| + 1
            && pl'.projectiles[..|pl.projectiles|] == pl.projectiles
            && pl'.projectiles[|pl.projectiles|] == ProjectileState(pl.x + 88.0, pl.y + 30.0, false))
      && (ammo <= 0 ==> pl' == pl && ammo' == ammo)
      && (0 <= ammo ==> 0 <= ammo' <= ammo)
  {
  }

  /** Player.update: the speed is -3 with Up held, else +3 with Down held, else 0; y moves by
      exactly that speed; every projectile left is unflagged and is an old projectile moved 3 to
      the right; and an old projectile is kept exactly when it was unflagged and its new x is
      not past 80% of the width. */
  lemma {:induction false} PlayerStepSpec(pl: PlayerState, keys: seq<string>, gameWidth: real)
    ensures var r := PlayerStep(pl, keys, gameWidth);
      && r.speedY == (if HeldKeys.Up in keys then -3.0 else if HeldKeys.Down in keys then 3.0 else 0.0)
      && r.y == pl.y + r.speedY && r.x == pl.x
      && (forall q :: q in r.projectiles ==> !q.markedForDeletion)
      && (forall q :: q in r.projectiles ==>
            exists i :: 0 <= i < |pl.projectiles| && q == ProjectileStep(pl.projectiles[i], gameWidth))
      && (forall i :: 0 <= i < |pl.projectiles| ==>
            var p := pl.projectiles[i];
            (ProjectileStep(p, gameWidth) in r.projectiles <==>
               !p.markedForDeletion && p.x + 3.0 <= gameWidth * 0.8))
  {
    var r := PlayerStep(pl, keys, gameWidth);
    var moved := StepAll(pl.projectiles, gameWidth);
    forall q | q in r.projectiles
      ensures !q.markedForDeletion
      ensures exists i :: 0 <= i < |pl.projectiles| && q == ProjectileStep(pl.projectiles[i], gameWidth)
    {
      Lists.KeepSound(moved, ProjectileGone, q);
      var i :| 0 <= i < |moved| && moved[i] == q;
    }
    forall i | 0 <= i < |pl.projectiles|
      ensures var p := pl.projectiles[i];
        (ProjectileStep(p, gameWidth) in r.projectiles <==> !p.markedForDeletion && p.x + 3.0 <= gameWidth * 0.8)
    {
      var q := ProjectileStep(pl.projectiles[i], gameWidth);
      assert moved[i] == q;
      if !q.markedForDeletion {
        Lists.KeepComplete(moved, ProjectileGone, q);
      }
    }
  }

  /** Player.update keeps the surviving projectiles in their order: splitting the list anywhere,
      the survivors of the front come before the survivors of the back. */
  lemma PlayerStepKeepsOrder(pl: PlayerState, keys: seq<string>, gameWidth: real, front: seq<ProjectileState>, back: seq<ProjectileState>)
    requires pl.projectiles == front + back
    ensures PlayerStep(pl, keys, gameWidth).projectiles
         == PlayerStep(pl.(projectiles := front), keys, gameWidth).projectiles
          + PlayerStep(pl.(projectiles := back), keys, gameWidth).projectiles
  {
    assert StepAll(front + back, gameWidth) == StepAll(front, gameWidth) + StepAll(back, gameWidth);
    Lists.KeepAppend(StepAll(front, gameWidth), StepAll(back, gameWidth), ProjectileGone);
  }
}
