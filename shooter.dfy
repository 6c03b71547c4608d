/** The game's objects as main.js has them: classes whose methods update their fields in place.
    Each object has a View(), its value in the terms of modules Bodies and Simulation, and every
    method that changes state is proved to change that value as the matching function says. */
module Shooter {
  import opened Geometry
  import opened Bodies
  import Simulation
  import Lists
  import HeldKeys

  // ---------------------------------------------------------------- Projectile

  class Projectile {
    var x: real
    const y: real
    const width: real := ProjectileWidth
    const height: real := ProjectileHeight
    const speed: real := ProjectileSpeed
    var markedForDeletion: bool

    function View(): ProjectileState
      reads this
    {
      ProjectileState(x, y, markedForDeletion)
    }

    function Bounds(): (r: Rect)
      reads this
      ensures r == ProjectileRect(View())
    {
      Rect(x, y, width, height)
    }

    constructor (x: real, y: real)
      ensures View() == ProjectileState(x, y, false)
    {
      this.x := x;
      this.y := y;
      markedForDeletion := false;
    }

    /** Projectile.update. */
    method Update(game: Game)
      modifies this
      ensures View() == ProjectileStep(old(View()), game.width)
    {
      x := x + speed;
      if x > game.width * 0.8 {
        markedForDeletion := true;
      }
    }
  }

  /** The values of a list of projectiles. */
  function ProjectileViews(ps: seq<Projectile>): (r: seq<ProjectileState>)
    reads ps
    ensures |r| == |ps|
    ensures forall i :: 0 <= i < |ps| ==> r[i] == ps[i].View()
  {
    seq(|ps|, i requires 0 <= i < |ps| reads ps => ps[i].View())
  }

  /** `projectiles.filter(projectile => !projectile.markedForDeletion)`. */
  function LiveProjectiles(ps: seq<Projectile>): (r: seq<Projectile>)
    reads ps
    ensures forall p :: p in r ==> p in ps
  {
    if |ps| == 0 then []
    else LiveProjectiles(ps[..|ps| - 1]) + (if ps[|ps| - 1].markedForDeletion then [] else [ps[|ps| - 1]])
  }

  /** Filtering the objects is filtering their values. */
  lemma {:induction false} LiveProjectilesSpec(ps: seq<Projectile>)
    ensures ProjectileViews(LiveProjectiles(ps)) == Lists.Keep(ProjectileViews(ps), ProjectileGone)
  {
    if |ps| > 0 {
      var n := |ps| - 1;
      LiveProjectilesSpec(ps[..n]);
      assert ProjectileViews(ps)[..n] == ProjectileViews(ps[..n]);
      var tail := if ps[n].markedForDeletion then [] else [ps[n]];
      assert ProjectileViews(LiveProjectiles(ps[..n]) + tail) == ProjectileViews(LiveProjectiles(ps[..n])) + ProjectileViews(tail);
    }
  }

  /** The filter keeps distinct objects distinct. */
  lemma {:induction false} LiveProjectilesDistinct(ps: seq<Projectile>)
    requires Lists.NoDuplicates(ps)
    ensures Lists.NoDuplicates(LiveProjectiles(ps))
  {
    if |ps| > 0 {
      var n := |ps| - 1;
      Lists.PrefixNoDuplicates(ps, n);
      LiveProjectilesDistinct(ps[..n]);
      var front := LiveProjectiles(ps[..n]);
      if ps[n].markedForDeletion {
        assert LiveProjectiles(ps) == front;
      } else {
        Lists.NotEarlier(ps, n);
        assert ps[n] !in front;
        Lists.AppendFresh(front, ps[n]);
      }
    }
  }

  // ---------------------------------------------------------------- Enemy (Anguler)

  class Enemy {
    var x: real
    const y: real
    const width: real := EnemyWidth
    const height: real := EnemyHeight
    const speedX: real
    var markedForDeletion: bool
    var lives: int
    const score: nat

    function View(): EnemyState
      reads this
    {
      EnemyState(x, y, speedX, lives, score, markedForDeletion)
    }

    function Bounds(): (r: Rect)
      reads this
      ensures r == EnemyRect(View())
    {
      Rect(x, y, width, height)
    }

    /** The Anguler constructor together with the Enemy constructor it calls; speedDraw and
        yDraw are its two Math.random() draws. */
    constructor Anguler(game: Game, speedDraw: real, yDraw: real)
      ensures View() == Bodies.Anguler(game.width, game.height, speedDraw, yDraw)
    {
      x := game.width;
      speedX := speedDraw * -1.5 - 0.5;
      markedForDeletion := false;
      lives := EnemyLives;
      score := EnemyLives;
      y := yDraw * (game.height * 0.9 - EnemyHeight);
    }

    /** Enemy.update. */
    method Update()
      modifies this
      ensures View() == EnemyStep(old(View()))
    {
      x := x + speedX;
      if x + width < 0.0 {
        markedForDeletion := true;
      }
    }
  }

  /** The values of a list of enemies. */
  function EnemyViews(es: seq<Enemy>): (r: seq<EnemyState>)
    reads es
    ensures |r| == |es|
    ensures forall i :: 0 <= i < |es| ==> r[i] == es[i].View()
  {
    seq(|es|, i requires 0 <= i < |es| reads es => es[i].View())
  }

  /** `enemies.filter(enemy => !enemy.markedForDeletion)`. */
  function LiveEnemies(es: seq<Enemy>): (r: seq<Enemy>)
    reads es
    ensures forall e :: e in r ==> e in es
  {
    if |es| == 0 then []
    else LiveEnemies(es[..|es| - 1]) + (if es[|es| - 1].markedForDeletion then [] else [es[|es| - 1]])
  }

  /** Filtering the objects is filtering their values. */
  lemma {:induction false} LiveEnemiesSpec(es: seq<Enemy>)
    ensures EnemyViews(LiveEnemies(es)) == Lists.Keep(EnemyViews(es), EnemyGone)
  {
    if |es| > 0 {
      var n := |es| - 1;
      LiveEnemiesSpec(es[..n]);
      assert EnemyViews(es)[..n] == EnemyViews(es[..n]);
      var tail := if es[n].markedForDeletion then [] else [es[n]];
      assert EnemyViews(LiveEnemies(es[..n]) + tail) == EnemyViews(LiveEnemies(es[..n])) + EnemyViews(tail);
    }
  }

  /** The filter keeps distinct objects distinct. */
  lemma {:induction false} LiveEnemiesDistinct(es: seq<Enemy>)
    requires Lists.NoDuplicates(es)
    ensures Lists.NoDuplicates(LiveEnemies(es))
  {
    if |es| > 0 {
      var n := |es| - 1;
      Lists.PrefixNoDuplicates(es, n);
      LiveEnemiesDistinct(es[..n]);
      var front := LiveEnemies(es[..n]);
      if es[n].markedForDeletion {
        assert LiveEnemies(es) == front;
      } else {
        Lists.NotEarlier(es, n);
        assert es[n] !in front;
        Lists.AppendFresh(front, es[n]);
      }
    }
  }

  // ---------------------------------------------------------------- Player

  class Player {
    const width: real := PlayerWidth
    const height: real := PlayerHeight
    const x: real := PlayerX
    var y: real
    var speedY: real
    const maxSpeed: real := MaxSpeed
    var projectiles: seq<Projectile>

    /** Every projectile object is owned once. */
    ghost predicate Valid()
      reads this
    {
      Lists.NoDuplicates(projectiles)
    }

    function View(): PlayerState
      reads this, projectiles
    {
      PlayerState(x, y, speedY, ProjectileViews(projectiles))
    }

    function Bounds(): (r: Rect)
      reads this
      ensures r == PlayerRect(View())
    {
      Rect(x, y, width, height)
    }

    constructor ()
      ensures Valid() && View() == NewPlayer()
    {
      y := PlayerY;
      speedY := 0.0;
      projectiles := [];
    }

    /** Player.update: speed from the held keys, move, update every projectile, then drop the
        flagged ones. */
    method Update(game: Game)
      requires Valid()
      modifies this, projectiles
      ensures Valid()
      ensures View() == PlayerStep(old(View()), game.keys, game.width)
      ensures forall p :: p in projectiles ==> p in old(projectiles)
    {
      ghost var pl0 := View();
      Steer(game);
      UpdateProjectiles(game);
      assert ProjectileViews(projectiles) == StepAll(pl0.projectiles, game.width);
      Sweep();
      assert View() == PlayerState(pl0.x, pl0.y + SpeedFor(game.keys), SpeedFor(game.keys),
                                   Lists.Keep(StepAll(pl0.projectiles, game.width), ProjectileGone));
    }

    /** The first half of Player.update: pick the speed from the held keys and move by it. */
    method Steer(game: Game)
      modifies this`speedY, this`y
      ensures speedY == SpeedFor(game.keys) && y == old(y) + speedY
    {
      if HeldKeys.Up in game.keys {
        speedY := -maxSpeed;
      } else if HeldKeys.Down in game.keys {
        speedY := maxSpeed;
      } else {
        speedY := 0.0;
      }
      y := y + speedY;
    }

    /** The last statement of Player.update: keep only the projectiles not flagged. */
    method Sweep()
      requires Valid()
      modifies this`projectiles
      ensures Valid()
      ensures ProjectileViews(projectiles) == Lists.Keep(old(ProjectileViews(projectiles)), ProjectileGone)
      ensures forall p :: p in projectiles ==> p in old(projectiles)
    {
      ghost var views := ProjectileViews(projectiles);
      var live := LiveProjectiles(projectiles);
      assert ProjectileViews(live) == Lists.Keep(views, ProjectileGone) && Lists.NoDuplicates(live) by {
        LiveProjectilesSpec(projectiles);
        LiveProjectilesDistinct(projectiles);
      }
      ghost var kept := ProjectileViews(live);
      projectiles := live;
      assert ProjectileViews(projectiles) == kept;
    }

    /** The forEach of Player.update: every projectile's update, in order. */
    method UpdateProjectiles(game: Game)
      requires Valid()
      modifies projectiles
      ensures ProjectileViews(projectiles) == StepAll(old(ProjectileViews(projectiles)), game.width)
    {
      ghost var before := ProjectileViews(projectiles);
      var i := 0;
      while i < |projectiles|
        invariant 0 <= i <= |projectiles|
        invariant forall j :: 0 <= j < i ==> projectiles[j].View() == ProjectileStep(before[j], game.width)
        invariant forall j :: i <= j < |projectiles| ==> projectiles[j].View() == before[j]
      {
        forall j | 0 <= j < |projectiles| && j != i ensures projectiles[j] != projectiles[i] {
          Lists.Distinct(projectiles, j, i);
        }
        projectiles[i].Update(game);
        i := i + 1;
      }
      assert ProjectileViews(projectiles) == StepAll(before, game.width);
    }

    /** Player.shootTop: with ammo, append a new projectile at (x+88, y+30) and spend a round. */
    method ShootTop(game: Game)
      requires Valid()
      modifies this, game`ammo
      ensures Valid()
      ensures (View(), game.ammo) == Bodies.ShootTop(old(View()), old(game.ammo))
      ensures |projectiles| >= |old(projectiles)| && projectiles[..|old(projectiles)|] == old(projectiles)
      ensures forall p :: p in projectiles[|old(projectiles)|..] ==> fresh(p)
    {
      if game.ammo > 0 {
        var projectile := new Projectile(x + MuzzleX, y + MuzzleY);
        Lists.AppendFresh(projectiles, projectile);
        projectiles := projectiles + [projectile];
        game.ammo := game.ammo - 1;
        assert ProjectileViews(projectiles) == old(ProjectileViews(projectiles)) + [projectile.View()];
      }
    }
  }

  // ---------------------------------------------------------------- Game

  class Game {
    const width: real
    const height: real
    var player: Player
    var keys: seq<string>
    var enemies: seq<Enemy>
    var enemyTimer: real
    const enemyInterval: real := Simulation.EnemyInterval
    var ammo: int
    const maxAmmo: int := Simulation.MaxAmmo
    var ammoTimer: real
    const ammoInterval: real := Simulation.AmmoInterval
    var gameOver: bool
    const winingScore: int := Simulation.WinningScore
    var score: int

    /** The player's projectiles and the enemies are distinct objects, and the game's value is
        Valid in the sense of Simulation. */
    ghost predicate Valid()
      reads this, player, player.projectiles, enemies
    {
      player.Valid() && Lists.NoDuplicates(enemies) && Simulation.Valid(View())
    }

    function View(): Simulation.GameState
      reads this, player, player.projectiles, enemies
    {
      Simulation.GameState(width, height, player.View(), keys, EnemyViews(enemies),
                           enemyTimer, ammo, ammoTimer, gameOver, score)
    }

    constructor (width: real, height: real)
      ensures Valid() && View() == Simulation.NewGame(width, height)
    {
      this.width := width;
      this.height := height;
      player := new Player();
      keys := [];
      enemies := [];
      enemyTimer := 0.0;
      ammo := Simulation.InitialAmmo;
      ammoTimer := 0.0;
      gameOver := false;
      score := 0;
    }

    /** The keydown listener's body. */
    method KeyDown(key: string)
      requires Valid()
      modifies this, player
      ensures Valid() && player == old(player)
      ensures View() == Simulation.KeyDown(old(View()), key)
    {
      if (key == HeldKeys.Up || key == HeldKeys.Down) && Lists.IndexOf(keys, key) == -1 {
        keys := keys + [key];
      } else if key == HeldKeys.Fire {
        player.ShootTop(this);
      }
      Simulation.KeyDownSpec(old(View()), key);
    }

    /** The keyup listener's body. */
    method KeyUp(key: string)
      requires Valid()
      modifies this`keys
      ensures Valid()
      ensures View() == Simulation.KeyUp(old(View()), key)
    {
      var index := Lists.IndexOf(keys, key);
      if index > -1 {
        keys := keys[..index] + keys[index + 1..];
      }
      Simulation.KeyUpSpec(old(View()), key);
    }

    /** Game.addEnemy. */
    method AddEnemy(speedDraw: real, yDraw: real)
      modifies this`enemies
      ensures |enemies| == |old(enemies)| + 1 && enemies[..|old(enemies)|] == old(enemies)
      ensures fresh(enemies[|old(enemies)|])
      ensures EnemyViews(enemies) == EnemyViews(old(enemies)) + [Bodies.Anguler(width, height, speedDraw, yDraw)]
      ensures Lists.NoDuplicates(old(enemies)) ==> Lists.NoDuplicates(enemies)
    {
      var enemy := new Enemy.Anguler(this, speedDraw, yDraw);
      if Lists.NoDuplicates(enemies) {
        Lists.AppendFresh(enemies, enemy);
      }
      enemies := enemies + [enemy];
    }

    /** The body of the inner forEach of Game.update: one projectile against one enemy. */
    method ExamineProjectile(enemy: Enemy, projectile: Projectile)
      modifies this`score, this`gameOver, enemy, projectile
      ensures (enemy.View(), projectile.View(), score, gameOver)
           == Simulation.Examine(old(enemy.View()), old(projectile.View()), old(score), old(gameOver))
    {
      if CheckCollision(projectile.Bounds(), enemy.Bounds()) {
        enemy.lives := enemy.lives - 1;
        projectile.markedForDeletion := true;
      }
      if enemy.lives <= 0 {
        enemy.markedForDeletion := true;
        score := score + enemy.score;
        if score >= winingScore {
          gameOver := true;
        }
      }
    }

    /** After the first k projectiles of the inner forEach against enemy: the enemy, those
        projectiles, score and flag hold what Clash gives for them, and the rest are untouched. */
    ghost predicate Examined(enemy: Enemy, k: int, e0: EnemyState, ps0: seq<ProjectileState>, score0: int, gameOver0: bool)
      reads this, enemy, player, player.projectiles
    {
      && 0 <= k <= |player.projectiles| == |ps0|
      && var b := Simulation.Clash(e0, ps0[..k], score0, gameOver0);
      && enemy.View() == b.enemy && score == b.score && gameOver == b.gameOver
      && |b.projectiles| == k
      && (forall j :: 0 <= j < k ==> player.projectiles[j].View() == b.projectiles[j])
      && (forall j :: k <= j < |player.projectiles| ==> player.projectiles[j].View() == ps0[j])
    }

    /** One turn of the inner forEach of Game.update: projectile k against enemy. */
    method ExamineAt(enemy: Enemy, k: int, ghost e0: EnemyState, ghost ps0: seq<ProjectileState>, ghost score0: int, ghost gameOver0: bool)
      requires player.Valid() && Examined(enemy, k, e0, ps0, score0, gameOver0) && k < |player.projectiles|
      modifies this`score, this`gameOver, enemy, player.projectiles
      ensures Examined(enemy, k + 1, e0, ps0, score0, gameOver0)
    {
      var projectile := player.projectiles[k];
      assert ps0[..k + 1][..k] == ps0[..k];
      forall j | 0 <= j < |player.projectiles| && j != k ensures player.projectiles[j] != projectile {
        Lists.Distinct(player.projectiles, j, k);
      }
      label Before:
      ExamineProjectile(enemy, projectile);
      assert forall j :: 0 <= j < |player.projectiles| && j != k ==>
        player.projectiles[j].View() == old@Before(player.projectiles[j].View());
    }

    /** The inner forEach of Game.update: every projectile, in order, against one enemy. */
    method ExamineProjectiles(enemy: Enemy)
      requires player.Valid()
      modifies this`score, this`gameOver, enemy, player.projectiles
      ensures var b := Simulation.Clash(old(enemy.View()), old(ProjectileViews(player.projectiles)), old(score), old(gameOver));
        enemy.View() == b.enemy && ProjectileViews(player.projectiles) == b.projectiles
        && score == b.score && gameOver == b.gameOver
    {
      ghost var e0, ps0, score0, gameOver0 := enemy.View(), ProjectileViews(player.projectiles), score, gameOver;
      var k := 0;
      while k < |player.projectiles|
        invariant Examined(enemy, k, e0, ps0, score0, gameOver0)
      {
        ExamineAt(enemy, k, e0, ps0, score0, gameOver0);
        k := k + 1;
      }
      assert ps0[..k] == ps0;
    }

    /** The body of the outer forEach of Game.update: move one enemy, flag it if it touches
        the player, then examine every projectile against it. pl is the player's value. */
    method UpdateEnemy(enemy: Enemy, ghost pl: PlayerState)
      requires player.Valid() && PlayerRect(pl) == player.Bounds()
      modifies this`score, this`gameOver, enemy, set p | p in player.projectiles
      ensures var b := Simulation.Clash(Simulation.Advance(old(enemy.View()), pl),
                                        old(ProjectileViews(player.projectiles)), old(score), old(gameOver));
        enemy.View() == b.enemy && ProjectileViews(player.projectiles) == b.projectiles
        && score == b.score && gameOver == b.gameOver
    {
      enemy.Update();
      if CheckCollision(player.Bounds(), enemy.Bounds()) {
        enemy.markedForDeletion := true;
      }
      ExamineProjectiles(enemy);
    }

    /** After the first i enemies of the outer forEach: those enemies and the projectiles,
        score and flag hold what Battle gives for them, and the other enemies are untouched. */
    ghost predicate Fought(i: int, es0: seq<EnemyState>, pl: PlayerState, score0: int, gameOver0: bool)
      reads this, enemies, player, player.projectiles
    {
      && 0 <= i <= |enemies| == |es0|
      && var r := Simulation.Battle(es0[..i], pl, pl.projectiles, score0, gameOver0);
      && |r.enemies| == i
      && (forall j :: 0 <= j < i ==> enemies[j].View() == r.enemies[j])
      && ProjectileViews(player.projectiles) == r.projectiles
      && score == r.score && gameOver == r.gameOver
      && (forall j :: i <= j < |enemies| ==> enemies[j].View() == es0[j])
    }

    /** One turn of the outer forEach of Game.update: enemy i. */
    method UpdateEnemyAt(i: int, ghost es0: seq<EnemyState>, ghost pl: PlayerState, ghost score0: int, ghost gameOver0: bool)
      requires player.Valid() && Lists.NoDuplicates(enemies) && PlayerRect(pl) == player.Bounds()
      requires Fought(i, es0, pl, score0, gameOver0) && i < |enemies|
      modifies this`score, this`gameOver, enemies, set p | p in player.projectiles
      ensures Fought(i + 1, es0, pl, score0, gameOver0)
    {
      var enemy := enemies[i];
      ghost var r := Simulation.Battle(es0[..i], pl, pl.projectiles, score0, gameOver0);
      ghost var b := Simulation.Clash(Simulation.Advance(es0[i], pl), r.projectiles, r.score, r.gameOver);
      assert Simulation.Battle(es0[..i + 1], pl, pl.projectiles, score0, gameOver0)
          == Simulation.Round(r.enemies + [b.enemy], b.projectiles, b.score, b.gameOver) by {
        assert es0[..i + 1][..i] == es0[..i];
      }
      forall j | 0 <= j < |enemies| && j != i ensures enemies[j] != enemy {
        Lists.Distinct(enemies, j, i);
      }
      label Before:
      UpdateEnemy(enemy, pl);
      assert forall j :: 0 <= j < |enemies| && j != i ==> enemies[j].View() == old@Before(enemies[j].View());
    }

    /** Before the outer forEach nothing has been fought; g is the game's value. */
    lemma FoughtNone(g: Simulation.GameState)
      requires g == View()
      ensures Fought(0, g.enemies, g.player, g.score, g.gameOver)
    {
      assert g.enemies[..0] == [];
    }

    /** Once every enemy has been fought, the game's value is what Simulation.Fight gives;
        g is the value before the outer forEach. */
    lemma FoughtAll(g: Simulation.GameState)
      requires Fought(|enemies|, g.enemies, g.player, g.score, g.gameOver)
      requires View().(player := g.player, enemies := g.enemies, score := g.score, gameOver := g.gameOver) == g
      requires player.View().(projectiles := g.player.projectiles) == g.player
      ensures View() == Simulation.Fight(g)
    {
      assert g.enemies[..|enemies|] == g.enemies;
      var r := Simulation.Battle(g.enemies, g.player, g.player.projectiles, g.score, g.gameOver);
      assert EnemyViews(enemies) == r.enemies;
    }

    /** The outer forEach of Game.update: every enemy, in order. */
    method UpdateEnemies()
      requires player.Valid() && Lists.NoDuplicates(enemies)
      modifies this`score, this`gameOver, enemies, set p | p in player.projectiles
      ensures View() == Simulation.Fight(old(View()))
    {
      ghost var g := View();
      FoughtNone(g);
      var i := 0;
      while i < |enemies|
        invariant Fought(i, g.enemies, g.player, g.score, g.gameOver)
      {
        UpdateEnemyAt(i, g.enemies, g.player, g.score, g.gameOver);
        i := i + 1;
      }
      FoughtAll(g);
    }

    /** The ammo refill of Game.update. */
    method Recharge(deltaTime: real)
      modifies this`ammo, this`ammoTimer
      ensures View() == Simulation.Recharge(old(View()), deltaTime)
    {
      if ammoTimer > ammoInterval {
        if ammo < maxAmmo {
          ammo := ammo + 1;
        }
        ammoTimer := 0.0;
      } else {
        ammoTimer := ammoTimer + deltaTime;
      }
    }

    /** The enemy filter and the spawn timer of Game.update. */
    method Spawn(deltaTime: real, speedDraw: real, yDraw: real)
      requires Lists.NoDuplicates(enemies)
      modifies this`enemies, this`enemyTimer
      ensures Lists.NoDuplicates(enemies)
      ensures View() == Simulation.Spawn(old(View()), deltaTime, speedDraw, yDraw)
    {
      ghost var g := View();
      var live := LiveEnemies(enemies);
      assert EnemyViews(live) == Lists.Keep(g.enemies, EnemyGone) && Lists.NoDuplicates(live) by {
        LiveEnemiesSpec(enemies);
        LiveEnemiesDistinct(enemies);
      }
      enemies := live;
      if enemyTimer > enemyInterval && !gameOver {
        AddEnemy(speedDraw, yDraw);
        enemyTimer := 0.0;
      } else {
        enemyTimer := enemyTimer + deltaTime;
      }
      assert player.View() == g.player;
      assert View() == g.(enemies := EnemyViews(enemies), enemyTimer := enemyTimer);
    }

    /** Game.update: one frame. speedDraw and yDraw are the Math.random() draws of the enemy
        spawned in this frame, if any. */
    method Update(deltaTime: real, speedDraw: real, yDraw: real)
      requires Valid()
      modifies this, player, player.projectiles, enemies
      ensures Valid() && player == old(player)
      ensures View() == Simulation.Tick(old(View()), deltaTime, speedDraw, yDraw)
    {
      ghost var g0 := View();
      player.Update(this);
      assert View() == Simulation.MovePlayer(g0);
      Recharge(deltaTime);
      UpdateEnemies();
      Spawn(deltaTime, speedDraw, yDraw);
      Simulation.TickInStages(g0, deltaTime, speedDraw, yDraw);
      Simulation.TickProgress(g0, deltaTime, speedDraw, yDraw);
    }
  }
}
