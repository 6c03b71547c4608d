/** One frame of the game (Game.update) and the key handlers, as functions on the game's value.
    The Game class of module Shooter is proved to follow these functions. */
module Simulation {
  import opened Geometry
  import opened Bodies
  import Lists
  import HeldKeys

  const EnemyInterval: real := 1000.0
  const InitialAmmo: int := 20
  const MaxAmmo: int := 50
  const AmmoInterval: real := 500.0
  const WinningScore: int := 15

  /** Everything Game.update reads or writes. */
  datatype GameState = GameState(
    width: real, height: real,
    player: PlayerState,
    keys: seq<string>,
    enemies: seq<EnemyState>,
    enemyTimer: real,
    ammo: int,
    ammoTimer: real,
    gameOver: bool,
    score: int)

  /** The Game constructor. */
  function NewGame(width: real, height: real): GameState
  {
    GameState(width, height, NewPlayer(), [], [], 0.0, InitialAmmo, 0.0, false, 0)
  }

  /** What holds of the game between frames: ammo within [0, maxAmmo], a valid held-key
      list, and no flagged enemy left in the list. */
  predicate Valid(g: GameState)
  {
    && 0 <= g.ammo <= MaxAmmo
    && HeldKeys.Valid(g.keys)
    && forall i :: 0 <= i < |g.enemies| ==> !g.enemies[i].markedForDeletion
  }

  lemma NewGameValid(width: real, height: real)
    ensures Valid(NewGame(width, height))
    ensures NewGame(width, height).ammo == 20 && NewGame(width, height).score == 0
    ensures !NewGame(width, height).gameOver
  {
  }

  // ---------------------------------------------------------------- ammo

  /** Ammo regeneration in Game.update: check the timer, then either reload and reset, or
      accumulate. */
  function Regen(ammo: int, ammoTimer: real, deltaTime: real): (int, real)
  {
    if ammoTimer > AmmoInterval then
      (if ammo < MaxAmmo then ammo + 1 else ammo, 0.0)
    else (ammo, ammoTimer + deltaTime)
  }

  /** On a reload tick (the timer already past 500) the timer becomes 0 and ammo grows by one
      unless full; on any other tick only the timer moves, by deltaTime. Ammo stays in range. */
  lemma RegenSpec(ammo: int, ammoTimer: real, deltaTime: real)
    ensures var (ammo', ammoTimer') := Regen(ammo, ammoTimer, deltaTime);
      && (0 <= ammo <= MaxAmmo ==> 0 <= ammo' <= MaxAmmo)
      && (ammoTimer > 500.0 ==> ammoTimer' == 0.0 && ammo' == (if ammo < 50 then ammo + 1 else ammo))
      && (ammoTimer <= 500.0 ==> ammoTimer' == ammoTimer + deltaTime && ammo' == ammo)
  {
  }

  // ---------------------------------------------------------------- one enemy against the projectiles

  /** The projectile overlaps the enemy. */
  predicate Hits(p: ProjectileState, e: EnemyState)
  {
    CheckCollision(ProjectileRect(p), EnemyRect(e))
  }

  /** The body of the inner forEach: one projectile examined against one enemy. The lives test
      runs whether or not this projectile hit, and adds the enemy's score each time it passes. */
  function Examine(e: EnemyState, p: ProjectileState, score: int, gameOver: bool): (EnemyState, ProjectileState, int, bool)
  {
    var hit := Hits(p, e);
    var e' := if hit then e.(lives := e.lives - 1) else e;
    var p' := if hit then p.(markedForDeletion := true) else p;
    if e'.lives <= 0 then
      var score' := score + e'.score;
      (e'.(markedForDeletion := true), p', score', if score' >= WinningScore then true else gameOver)
    else (e', p', score, gameOver)
  }

  /** What the inner forEach leaves behind. */
  datatype Bout = Bout(enemy: EnemyState, projectiles: seq<ProjectileState>, score: int, gameOver: bool)

  /** The inner forEach: every projectile, in order, examined against one enemy. */
  function Clash(e: EnemyState, ps: seq<ProjectileState>, score: int, gameOver: bool): Bout
  {
    if |ps| == 0 then Bout(e, [], score, gameOver)
    else
      var before := Clash(e, ps[..|ps| - 1], score, gameOver);
      var (e', p', score', gameOver') := Examine(before.enemy, ps[|ps| - 1], before.score, before.gameOver);
      Bout(e', before.projectiles + [p'], score', gameOver')
  }

  /** How many of the projectiles overlap the enemy. */
  function Overlaps(e: EnemyState, ps: seq<ProjectileState>): nat
  {
    if |ps| == 0 then 0
    else Overlaps(e, ps[..|ps| - 1]) + (if Hits(ps[|ps| - 1], e) then 1 else 0)
  }

  /** For how many prefixes of the projectile list the enemy's lives, less the overlaps so far,
      are at or below zero: the number of times the lives test passes. */
  function DeadChecks(e: EnemyState, ps: seq<ProjectileState>): nat
  {
    if |ps| == 0 then 0
    else DeadChecks(e, ps[..|ps| - 1]) + (if e.lives - Overlaps(e, ps) <= 0 then 1 else 0)
  }

  /** Two projectile lists that agree on every position (and may differ in their flags). */
  predicate SamePlaces(ps: seq<ProjectileState>, qs: seq<ProjectileState>)
  {
    |ps| == |qs| && forall k :: 0 <= k < |ps| ==> ps[k].x == qs[k].x && ps[k].y == qs[k].y
  }

  /** Overlaps never exceed the number of projectiles and grow along the list. */
  lemma {:induction false} OverlapsBound(e: EnemyState, ps: seq<ProjectileState>)
    ensures Overlaps(e, ps) <= |ps|
  {
    if |ps| > 0 {
      OverlapsBound(e, ps[..|ps| - 1]);
    }
  }

  /** The lives test has passed at least once exactly when there was a projectile to examine
      and the enemy's lives end at or below zero. */
  lemma {:induction false} DeadChecksFires(e: EnemyState, ps: seq<ProjectileState>)
    ensures DeadChecks(e, ps) > 0 <==> |ps| > 0 && e.lives - Overlaps(e, ps) <= 0
  {
    if |ps| > 0 {
      DeadChecksFires(e, ps[..|ps| - 1]);
    }
  }

  /** Counting overlaps and lives tests looks only at positions, never at the flags. */
  lemma {:induction false} CountsIgnoreFlags(e: EnemyState, e': EnemyState, ps: seq<ProjectileState>, qs: seq<ProjectileState>)
    requires SamePlaces(ps, qs)
    requires e'.x == e.x && e'.y == e.y && e'.lives == e.lives
    ensures Overlaps(e', qs) == Overlaps(e, ps)
    ensures DeadChecks(e', qs) == DeadChecks(e, ps)
  {
    if |ps| > 0 {
      CountsIgnoreFlags(e, e', ps[..|ps| - 1], qs[..|qs| - 1]);
    }
  }

  /** The inner forEach never moves the enemy nor changes its speed or score. */
  lemma {:induction false} ClashKeepsPlace(e: EnemyState, ps: seq<ProjectileState>, score: int, gameOver: bool)
    ensures var b := Clash(e, ps, score, gameOver);
      b.enemy.x == e.x && b.enemy.y == e.y && b.enemy.speedX == e.speedX && b.enemy.score == e.score
  {
    if |ps| > 0 {
      ClashKeepsPlace(e, ps[..|ps| - 1], score, gameOver);
    }
  }

  /** In the inner forEach each overlapping projectile is flagged and no other changes. */
  lemma {:induction false} ClashProjectiles(e: EnemyState, ps: seq<ProjectileState>, score: int, gameOver: bool)
    ensures var b := Clash(e, ps, score, gameOver);
      && |b.projectiles| == |ps|
      && (forall k :: 0 <= k < |ps| ==>
            b.projectiles[k] == ps[k].(markedForDeletion := ps[k].markedForDeletion || Hits(ps[k], e)))
  {
    if |ps| > 0 {
      var n := |ps| - 1;
      ClashProjectiles(e, ps[..n], score, gameOver);
      ClashKeepsPlace(e, ps[..n], score, gameOver);
      var before := Clash(e, ps[..n], score, gameOver);
      assert Hits(ps[n], before.enemy) == Hits(ps[n], e);
    }
  }

  /** a * (n + 1) == a * n + a, the one nonlinear step the score proofs take. */
  lemma Distribute(a: int, n: int)
    ensures a * (n + 1) == a * n + a
  {
  }

  /** The inner forEach on one enemy: its lives drop by exactly the number of overlapping
      projectiles, the enemy is flagged exactly when the lives test passed, the score grows by
      the enemy's score once per pass of that test, and the game ends exactly when it was over
      or a pass left the score at 15 or more. */
  lemma {:induction false} ClashEnemy(e: EnemyState, ps: seq<ProjectileState>, score: int, gameOver: bool)
    ensures var b := Clash(e, ps, score, gameOver);
      && b.enemy == e.(lives := e.lives - Overlaps(e, ps),
                       markedForDeletion := e.markedForDeletion || DeadChecks(e, ps) > 0)
      && b.score == score + e.score * DeadChecks(e, ps)
      && b.gameOver == (gameOver || (DeadChecks(e, ps) > 0 && b.score >= WinningScore))
  {
    if |ps| > 0 {
      var n := |ps| - 1;
      var front, last := ps[..n], ps[n];
      ClashEnemy(e, front, score, gameOver);
      DeadChecksFires(e, front);
      var before := Clash(e, front, score, gameOver);
      assert Hits(last, before.enemy) == Hits(last, e);
      var lives := e.lives - Overlaps(e, ps);
      assert before.enemy.lives == e.lives - Overlaps(e, front);
      if lives <= 0 {
        assert DeadChecks(e, ps) == DeadChecks(e, front) + 1;
        Distribute(e.score, DeadChecks(e, front));
      } else {
        assert DeadChecks(e, ps) == DeadChecks(e, front) == 0;
      }
    }
  }

  // ---------------------------------------------------------------- all enemies

  /** The first two statements of the outer forEach: Enemy.update, then the player test. */
  function Advance(e: EnemyState, player: PlayerState): EnemyState
  {
    var e' := EnemyStep(e);
    if CheckCollision(PlayerRect(player), EnemyRect(e')) then e'.(markedForDeletion := true) else e'
  }

  /** What the outer forEach leaves behind. */
  datatype Round = Round(enemies: seq<EnemyState>, projectiles: seq<ProjectileState>, score: int, gameOver: bool)

  /** The outer forEach: every enemy, in order, advanced, tested against the player and then
      against every projectile (flagged ones included). */
  function Battle(es: seq<EnemyState>, player: PlayerState, ps: seq<ProjectileState>, score: int, gameOver: bool): Round
  {
    if |es| == 0 then Round([], ps, score, gameOver)
    else
      var before := Battle(es[..|es| - 1], player, ps, score, gameOver);
      var b := Clash(Advance(es[|es| - 1], player), before.projectiles, before.score, before.gameOver);
      Round(before.enemies + [b.enemy], b.projectiles, b.score, b.gameOver)
  }

  /** The score the outer forEach adds: each enemy's score times the passes of its lives test. */
  function Bounty(es: seq<EnemyState>, player: PlayerState, ps: seq<ProjectileState>): nat
  {
    if |es| == 0 then 0
    else Bounty(es[..|es| - 1], player, ps) + es[|es| - 1].score * DeadChecks(Advance(es[|es| - 1], player), ps)
  }

  /** The total number of passes of the lives test in the outer forEach. */
  function Kills(es: seq<EnemyState>, player: PlayerState, ps: seq<ProjectileState>): nat
  {
    if |es| == 0 then 0
    else Kills(es[..|es| - 1], player, ps) + DeadChecks(Advance(es[|es| - 1], player), ps)
  }

  /** Some enemy, after its update, overlaps the projectile. */
  predicate Struck(p: ProjectileState, es: seq<EnemyState>, player: PlayerState)
  {
    exists i :: 0 <= i < |es| && Hits(p, Advance(es[i], player))
  }

  /** A projectile is struck by a list of enemies exactly when it is struck by all but the
      last or by the last. */
  lemma StruckSplit(p: ProjectileState, es: seq<EnemyState>, player: PlayerState)
    requires |es| > 0
    ensures Struck(p, es, player) <==> Struck(p, es[..|es| - 1], player) || Hits(p, Advance(es[|es| - 1], player))
  {
    var n := |es| - 1;
    if Struck(p, es, player) && !Hits(p, Advance(es[n], player)) {
      var i :| 0 <= i < |es| && Hits(p, Advance(es[i], player));
      assert es[..n][i] == es[i];
    }
    if Struck(p, es[..n], player) {
      var i :| 0 <= i < n && Hits(p, Advance(es[..n][i], player));
      assert es[..n][i] == es[i];
    }
  }

  /** The value the outer forEach gives one enemy. */
  function Outcome(e: EnemyState, player: PlayerState, ps: seq<ProjectileState>): EnemyState
  {
    var a := Advance(e, player);
    a.(lives := a.lives - Overlaps(a, ps), markedForDeletion := a.markedForDeletion || DeadChecks(a, ps) > 0)
  }

  /** The Outcome of each enemy of a list, in its order. */
  function Outcomes(es: seq<EnemyState>, player: PlayerState, ps: seq<ProjectileState>): seq<EnemyState>
  {
    seq(|es|, i requires 0 <= i < |es| => Outcome(es[i], player, ps))
  }

  /** The outer forEach moves no projectile and keeps the list's length. */
  lemma {:induction false} BattlePlaces(es: seq<EnemyState>, player: PlayerState, ps: seq<ProjectileState>, score: int, gameOver: bool)
    ensures SamePlaces(Battle(es, player, ps, score, gameOver).projectiles, ps)
  {
    if |es| > 0 {
      var n := |es| - 1;
      BattlePlaces(es[..n], player, ps, score, gameOver);
      var before := Battle(es[..n], player, ps, score, gameOver);
      ClashProjectiles(Advance(es[n], player), before.projectiles, before.score, before.gameOver);
    }
  }

  /** The outer forEach, enemy by enemy: enemy i ends as its own Outcome against the
      projectiles as they were before the loop, so a projectile flagged by an earlier enemy
      still hits a later one. */
  lemma {:induction false} BattleEnemies(es: seq<EnemyState>, player: PlayerState, ps: seq<ProjectileState>, score: int, gameOver: bool)
    ensures var r := Battle(es, player, ps, score, gameOver);
      && |r.enemies| == |es|
      && (forall i :: 0 <= i < |es| ==> r.enemies[i] == Outcome(es[i], player, ps))
  {
    if |es| > 0 {
      var n := |es| - 1;
      BattleEnemies(es[..n], player, ps, score, gameOver);
      var before := Battle(es[..n], player, ps, score, gameOver);
      var a := Advance(es[n], player);
      var b := Clash(a, before.projectiles, before.score, before.gameOver);
      assert b.enemy == Outcome(es[n], player, ps) by {
        BattlePlaces(es[..n], player, ps, score, gameOver);
        ClashEnemy(a, before.projectiles, before.score, before.gameOver);
        CountsIgnoreFlags(a, a, before.projectiles, ps);
      }
      var r := Battle(es, player, ps, score, gameOver);
      assert r.enemies == before.enemies + [b.enemy];
      forall i | 0 <= i < |es| ensures r.enemies[i] == Outcome(es[i], player, ps) {
        if i < n {
          assert es[..n][i] == es[i];
        }
      }
    }
  }

  /** The outer forEach, projectile by projectile: a projectile ends flagged exactly when it
      was flagged or some advanced enemy overlaps it. */
  lemma {:induction false} BattleProjectiles(es: seq<EnemyState>, player: PlayerState, ps: seq<ProjectileState>, score: int, gameOver: bool)
    ensures var r := Battle(es, player, ps, score, gameOver);
      && |r.projectiles| == |ps|
      && (forall k :: 0 <= k < |ps| ==>
            r.projectiles[k] == ps[k].(markedForDeletion := ps[k].markedForDeletion || Struck(ps[k], es, player)))
  {
    if |es| > 0 {
      var n := |es| - 1;
      var front := es[..n];
      BattleProjectiles(front, player, ps, score, gameOver);
      var before := Battle(front, player, ps, score, gameOver);
      var a := Advance(es[n], player);
      ClashProjectiles(a, before.projectiles, before.score, before.gameOver);
      var r := Battle(es, player, ps, score, gameOver);
      forall k | 0 <= k < |ps|
        ensures r.projectiles[k] == ps[k].(markedForDeletion := ps[k].markedForDeletion || Struck(ps[k], es, player))
      {
        assert Hits(before.projectiles[k], a) == Hits(ps[k], a);
        StruckSplit(ps[k], es, player);
      }
    }
  }

  /** The outer forEach adds the Bounty to the score, and ends the game exactly when it was
      over or some lives test passed and the final score is 15 or more. */
  lemma {:induction false} BattleScore(es: seq<EnemyState>, player: PlayerState, ps: seq<ProjectileState>, score: int, gameOver: bool)
    ensures var r := Battle(es, player, ps, score, gameOver);
      && r.score == score + Bounty(es, player, ps)
      && r.gameOver == (gameOver || (Kills(es, player, ps) > 0 && r.score >= WinningScore))
  {
    if |es| > 0 {
      var n := |es| - 1;
      var front := es[..n];
      BattleScore(front, player, ps, score, gameOver);
      var before := Battle(front, player, ps, score, gameOver);
      var a := Advance(es[n], player);
      var b := Clash(a, before.projectiles, before.score, before.gameOver);
      var checks := DeadChecks(a, ps);
      assert b.score == before.score + es[n].score * checks
          && b.gameOver == (before.gameOver || (checks > 0 && b.score >= WinningScore)) by {
        BattlePlaces(front, player, ps, score, gameOver);
        ClashEnemy(a, before.projectiles, before.score, before.gameOver);
        CountsIgnoreFlags(a, a, before.projectiles, ps);
      }
      assert Bounty(es, player, ps) == Bounty(front, player, ps) + es[n].score * checks;
      assert Kills(es, player, ps) == Kills(front, player, ps) + checks;
    }
  }

  /** An enemy the outer forEach flags is one that was flagged already, went wholly past the
      left edge, touched the player, or had lives at or below zero when a projectile was
      examined; and its lives only go down, by exactly the overlapping projectiles. */
  lemma FlaggedMeans(e: EnemyState, player: PlayerState, ps: seq<ProjectileState>)
    ensures var o := Outcome(e, player, ps);
      && (o.markedForDeletion <==>
            || e.markedForDeletion
            || e.x + e.speedX + EnemyWidth < 0.0
            || CheckCollision(PlayerRect(player), EnemyRect(EnemyStep(e)))
            || (|ps| > 0 && o.lives <= 0))
      && o.lives == e.lives - Overlaps(EnemyStep(e), ps)
      && e.lives - |ps| <= o.lives <= e.lives
      && o.x == e.x + e.speedX && o.y == e.y && o.speedX == e.speedX && o.score == e.score
  {
    var a := Advance(e, player);
    DeadChecksFires(a, ps);
    OverlapsBound(a, ps);
    CountsIgnoreFlags(a, EnemyStep(e), ps, ps);
  }

  // ---------------------------------------------------------------- a whole frame

  /** Game.addEnemy, with the constructor's two random draws as parameters. */
  function AddEnemy(g: GameState, speedDraw: real, yDraw: real): GameState
  {
    g.(enemies := g.enemies + [Anguler(g.width, g.height, speedDraw, yDraw)])
  }

  /** Game.update. */
  function Tick(g: GameState, deltaTime: real, speedDraw: real, yDraw: real): GameState
  {
    var player := PlayerStep(g.player, g.keys, g.width);
    var (ammo, ammoTimer) := Regen(g.ammo, g.ammoTimer, deltaTime);
    var r := Battle(g.enemies, player, player.projectiles, g.score, g.gameOver);
    var g' := g.(player := player.(projectiles := r.projectiles),
                 ammo := ammo, ammoTimer := ammoTimer,
                 enemies := Lists.Keep(r.enemies, EnemyGone),
                 score := r.score, gameOver := r.gameOver);
    if g.enemyTimer > EnemyInterval && !g'.gameOver then
      AddEnemy(g', speedDraw, yDraw).(enemyTimer := 0.0)
    else g'.(enemyTimer := g.enemyTimer + deltaTime)
  }

  // The statements of Game.update, one stage each, in the order the method runs them.

  /** `this.player.update()`. */
  function MovePlayer(g: GameState): GameState
  {
    g.(player := PlayerStep(g.player, g.keys, g.width))
  }

  /** The ammo refill. */
  function Recharge(g: GameState, deltaTime: real): GameState
  {
    var (ammo, ammoTimer) := Regen(g.ammo, g.ammoTimer, deltaTime);
    g.(ammo := ammo, ammoTimer := ammoTimer)
  }

  /** The outer forEach over the enemies. */
  function Fight(g: GameState): GameState
  {
    var r := Battle(g.enemies, g.player, g.player.projectiles, g.score, g.gameOver);
    g.(player := g.player.(projectiles := r.projectiles), enemies := r.enemies, score := r.score, gameOver := r.gameOver)
  }

  /** The enemy filter and the spawn timer. */
  function Spawn(g: GameState, deltaTime: real, speedDraw: real, yDraw: real): GameState
  {
    var g' := g.(enemies := Lists.Keep(g.enemies, EnemyGone));
    if g.enemyTimer > EnemyInterval && !g.gameOver then AddEnemy(g', speedDraw, yDraw).(enemyTimer := 0.0)
    else g'.(enemyTimer := g.enemyTimer + deltaTime)
  }

  /** A frame is its four stages run in order. */
  lemma TickInStages(g: GameState, deltaTime: real, speedDraw: real, yDraw: real)
    ensures Tick(g, deltaTime, speedDraw, yDraw) == Spawn(Fight(Recharge(MovePlayer(g), deltaTime)), deltaTime, speedDraw, yDraw)
  {
  }

  /** Enemy e' is what enemy e became in a frame: moved by its speed, same row, speed and
      score, and no more lives. */
  predicate Descends(e: EnemyState, e': EnemyState)
  {
    e'.x == e.x + e.speedX && e'.y == e.y && e'.speedX == e.speedX && e'.score == e.score && e'.lives <= e.lives
  }

  /** A frame never lowers the score, never revives a finished game, and keeps the game Valid
      (ammo in range, keys valid, no flagged enemy left). */
  lemma TickProgress(g: GameState, deltaTime: real, speedDraw: real, yDraw: real)
    requires Valid(g)
    ensures var t := Tick(g, deltaTime, speedDraw, yDraw);
      && t.score >= g.score
      && (g.gameOver ==> t.gameOver)
      && (t.gameOver ==> g.gameOver || t.score >= WinningScore)
      && Valid(t)
      && t.keys == g.keys && t.width == g.width && t.height == g.height
  {
    var player := PlayerStep(g.player, g.keys, g.width);
    var r := Battle(g.enemies, player, player.projectiles, g.score, g.gameOver);
    BattleScore(g.enemies, player, player.projectiles, g.score, g.gameOver);
    RegenSpec(g.ammo, g.ammoTimer, deltaTime);
    var survivors := Lists.Keep(r.enemies, EnemyGone);
    var t := Tick(g, deltaTime, speedDraw, yDraw);
    forall i | 0 <= i < |t.enemies| ensures !t.enemies[i].markedForDeletion {
      if i < |survivors| {
        Lists.KeepSound(r.enemies, EnemyGone, t.enemies[i]);
      }
    }
  }

  /** Every unflagged Outcome descends from the enemy it is the Outcome of. */
  lemma SurvivorsDescend(es: seq<EnemyState>, player: PlayerState, ps: seq<ProjectileState>)
    ensures forall e' :: e' in Lists.Keep(Outcomes(es, player, ps), EnemyGone) ==>
      !e'.markedForDeletion && exists i :: 0 <= i < |es| && Descends(es[i], e')
  {
    var os := Outcomes(es, player, ps);
    forall e' | e' in Lists.Keep(os, EnemyGone)
      ensures !e'.markedForDeletion
      ensures exists i :: 0 <= i < |es| && Descends(es[i], e')
    {
      Lists.KeepSound(os, EnemyGone, e');
      var i :| 0 <= i < |os| && os[i] == e';
      FlaggedMeans(es[i], player, ps);
    }
  }

  /** After a frame the enemy list holds, in the old order, the unflagged ones among the
      Outcomes of the enemies of the frame before, so each survivor descends from one of
      them; a new enemy is appended and the spawn timer reset exactly when the timer was
      past 1000 and the game is not over after the forEach; otherwise the timer grows by
      deltaTime and nothing is appended. */
  lemma TickEnemies(g: GameState, deltaTime: real, speedDraw: real, yDraw: real)
    ensures var t := Tick(g, deltaTime, speedDraw, yDraw);
      var player := PlayerStep(g.player, g.keys, g.width);
      var survivors := Lists.Keep(Battle(g.enemies, player, player.projectiles, g.score, g.gameOver).enemies, EnemyGone);
      var spawn := g.enemyTimer > EnemyInterval && !t.gameOver;
      && survivors == Lists.Keep(Outcomes(g.enemies, player, player.projectiles), EnemyGone)
      && (forall e' :: e' in survivors ==> !e'.markedForDeletion && exists i :: 0 <= i < |g.enemies| && Descends(g.enemies[i], e'))
      && (spawn ==> t.enemyTimer == 0.0 && t.enemies == survivors + [Anguler(g.width, g.height, speedDraw, yDraw)])
      && (!spawn ==> t.enemyTimer == g.enemyTimer + deltaTime && t.enemies == survivors)
  {
    var player := PlayerStep(g.player, g.keys, g.width);
    var r := Battle(g.enemies, player, player.projectiles, g.score, g.gameOver);
    BattleEnemies(g.enemies, player, player.projectiles, g.score, g.gameOver);
    assert r.enemies == Outcomes(g.enemies, player, player.projectiles);
    SurvivorsDescend(g.enemies, player, player.projectiles);
  }

  /** Once the game is over no enemy is ever spawned again. */
  lemma GameOverStopsSpawning(g: GameState, deltaTime: real, speedDraw: real, yDraw: real)
    requires g.gameOver
    ensures var t := Tick(g, deltaTime, speedDraw, yDraw);
      t.gameOver && |t.enemies| <= |g.enemies| && t.enemyTimer == g.enemyTimer + deltaTime
  {
    var player := PlayerStep(g.player, g.keys, g.width);
    BattleScore(g.enemies, player, player.projectiles, g.score, g.gameOver);
    BattleEnemies(g.enemies, player, player.projectiles, g.score, g.gameOver);
  }

  // ---------------------------------------------------------------- the key handlers

  /** The keydown handler: push a new arrow key, or fire on the space bar. */
  function KeyDown(g: GameState, key: string): GameState
  {
    if HeldKeys.Pushes(g.keys, key) then g.(keys := g.keys + [key])
    else if key == HeldKeys.Fire then
      var (player, ammo) := ShootTop(g.player, g.ammo);
      g.(player := player, ammo := ammo)
    else g
  }

  /** The keyup handler. */
  function KeyUp(g: GameState, key: string): GameState
  {
    g.(keys := HeldKeys.Release(g.keys, key))
  }

  /** keydown keeps the game Valid; a held key changes nothing; a new arrow key is appended
      and nothing else changes; the space bar fires and changes only the player and the ammo;
      any other key does nothing. */
  lemma KeyDownSpec(g: GameState, key: string)
    requires Valid(g)
    ensures var t := KeyDown(g, key);
      && Valid(t)
      && (key in g.keys ==> t == g)
      && ((key == HeldKeys.Up || key == HeldKeys.Down) && key !in g.keys ==> t == g.(keys := g.keys + [key]))
      && (key == HeldKeys.Fire ==> t == g.(player := t.player, ammo := t.ammo) && (t.player, t.ammo) == ShootTop(g.player, g.ammo))
      && (key != HeldKeys.Up && key != HeldKeys.Down && key != HeldKeys.Fire ==> t == g)
  {
    HeldKeys.PushSpec(g.keys, key);
    ShootTopSpec(g.player, g.ammo);
    if key in g.keys {
      var i :| 0 <= i < |g.keys| && g.keys[i] == key;
    }
  }

  /** keyup keeps the game Valid, removes the key from the list (the other keys stay in order)
      and changes nothing else. */
  lemma KeyUpSpec(g: GameState, key: string)
    requires Valid(g)
    ensures var t := KeyUp(g, key);
      && Valid(t)
      && key !in t.keys
      && t.keys == Lists.Keep(g.keys, HeldKeys.Is(key))
      && t.(keys := g.keys) == g
  {
    HeldKeys.ReleaseValid(g.keys, key);
    HeldKeys.ReleaseRemoves(g.keys, key);
  }
}
