# A verified model of the javascript-oop-game simulation core

The game in `main.js` is a small side-scrolling shooter on a 500 x 500 canvas. The player's
ship moves up and down while the arrow keys are held and fires projectiles with the space bar.
Enemies ("Anguler") come in from the right edge, and every enemy killed adds to the score. The
game is over once the score reaches 15. This project models the simulation part of that file in
Dafny and proves properties of it:
- one frame of `Game.update`: the player and its projectiles, ammo regeneration, the enemy and
  projectile loops with their collision tests, culling and spawning;
- the `checkCollision` overlap test;
- the `keydown` and `keyup` handlers that keep the list of held keys.

The model has two layers.

* **Values** (modules `Geometry`, `Lists`, `HeldKeys`, `Bodies`, `Simulation`). Every entity is
  a datatype (`ProjectileState`, `EnemyState`, `PlayerState`, `GameState`). Every statement
  group of the source is a function on those values: `ProjectileStep`, `EnemyStep`, `Anguler`,
  `PlayerStep`, `ShootTop`, `Regen`, `Examine` (one projectile against one enemy), `Clash` (the
  inner `forEach`), `Battle` (the outer `forEach`), `Tick` (the whole of `Game.update`), and
  `KeyDown` and `KeyUp`. The properties are lemmas about these functions.
* **Objects** (module `Shooter`). The classes `Projectile`, `Enemy`, `Player` and `Game` have
  the source's fields and update them in place, loop by loop, as `main.js` does. Each class has
  a `View()` that reads its value. Every method that changes state is proved to change that
  value exactly as the matching function says, for example
  `Game.Update ensures View() == Simulation.Tick(old(View()), …)`. Longer source methods are
  cut into methods that follow their statement groups:
  * `Player.update` becomes `Steer`, `UpdateProjectiles` and `Sweep`.
  * `Game.update` becomes `Player.Update`, `Recharge`, `UpdateEnemies` and `Spawn`.
  * Each `forEach` body is a method of its own: `UpdateEnemy`, `ExamineProjectile`.

The code is modelled as written, including these behaviours:

* The lives test `enemy.lives <= 0` sits inside the projectile loop. Once an enemy's lives are
  at or below 0, its score is added again for every projectile examined after that, hit or not
  (`ClashEnemy`, `DeadChecks`, `Scenarios.TripleScore`).
* Lives keep dropping below 0 while overlapping projectiles remain.
* A flagged enemy or projectile keeps taking part in the loops until the filter removes it at
  the end of its update. A projectile that hit one enemy is tested against the next one and can
  hit it too (`BattleEnemies`).
* The ammo timer is tested before it grows. The frame that finds it past 500 reloads and resets
  it without adding that frame's `deltaTime` (`RegenSpec`, `Scenarios.Reload`).
* The spawn test reads `gameOver` after the enemy loop. An enemy that wins the game therefore
  also stops that frame's spawn (`TickEnemies`, `GameOverStopsSpawning`).
* `Math.random() * -1.5 - 0.5` with a draw in [0, 1) gives a speed in (-2.0, -0.5]: -0.5 is
  reached and -2.0 never is (`SpawnSpec`).

Math.random is not modelled. Its two draws (`speedDraw` for the enemy's speed, `yDraw` for its
row) are parameters of `Anguler`, `AddEnemy`, `Tick` and `Game.Update`. The frame time
`deltaTime` is a parameter, as in the source.

## Model

| member | source | states |
|---|---|---|
| `Geometry.CollisionSymmetric` | main.js:268-273 | the overlap test gives the same answer whichever rectangle comes first |
| `Geometry.CollisionMeansCommonPoint` | main.js:268-273 | for rectangles of positive size, the test holds exactly when their interiors share a point (both directions) |
| `Lists.IndexOf` | main.js:14 | `indexOf`: -1 exactly when the key is absent, otherwise a position holding the key with no earlier copy |
| `Lists.RemoveAt` | main.js:25 | `splice(index, 1)`: one element fewer, and the list is the rest with the element put back at its place; only old elements remain; no duplicates are created |
| `Lists.Keep` | main.js:83 | `filter` never lengthens the list |
| `Lists.KeepSound` | main.js:83 | every element a `filter` keeps was in the list and is not flagged |
| `Lists.KeepComplete` | main.js:247 | every unflagged element of the list survives `filter` |
| `Lists.KeepAppend` | main.js:247 | filtering a concatenation is concatenating the filtered parts, in order |
| `Lists.KeepNone` | main.js:247 | `filter` removes nothing when nothing is flagged |
| `Lists.KeepOne` | main.js:22-28 | removing the one flagged position by `filter` equals splicing it out |
| `HeldKeys.PushSpec` | main.js:13-15 | keydown pushes exactly an arrow key that is not yet held, and the list stays free of duplicates and holds only arrow keys |
| `HeldKeys.ReleaseShape` | main.js:22-28 | keyup removes exactly one copy of a held key, leaves the rest in order, and changes nothing for a key not held |
| `HeldKeys.ReleaseValid` | main.js:22-28 | keyup keeps the held-key list free of duplicates and of non-arrow keys |
| `HeldKeys.ReleaseRemoves` | main.js:22-28 | on such a list keyup removes the key completely and equals filtering it out |
| `Bodies.ProjectileFlight` | main.js:44-47 | after n updates a projectile has moved 3n to the right at the same y, and it is flagged exactly when it was flagged already or its last x is past 80% of the width |
| `Bodies.SpawnSpec` | main.js:106-136 | a new Anguler sits at x = width, unflagged, with 5 lives worth 5 points and speed in (-2.0, -0.5]; when the arena is tall enough, its top lies in [0, 0.9 x height - enemy height] |
| `Bodies.EnemyFlightSpec` | main.js:114-117 | after n updates an enemy with speedX <= 0 has moved n times speedX, keeps its row, speed, lives and score, and is flagged exactly when it already was or (n > 0) its last position is wholly left of x = 0 |
| `Bodies.EnemyLeaves` | main.js:114-117 | an enemy at least 0.5 fast (every spawned one is) is flagged by its own updates once n frames of 0.5 cover its distance past the left edge |
| `Bodies.ShootTopSpec` | main.js:94-100 | with ammo: exactly one unflagged projectile at (x+88, y+30) is appended, the older ones are kept, one round is spent; without ammo nothing changes; ammo never goes negative |
| `Bodies.PlayerStepSpec` | main.js:73-84 | speed -3 with ArrowUp held, else +3 with ArrowDown, else 0; y moves by it; the survivors are unflagged moved projectiles; a projectile survives exactly when it was unflagged and its new x is not past 80% of the width |
| `Bodies.PlayerStepKeepsOrder` | main.js:79-83 | Player.update keeps the surviving projectiles in their old order |
| `Simulation.NewGameValid` | main.js:200-218 | a new game has ammo 20, score 0, is not over and satisfies the game invariant |
| `Simulation.RegenSpec` | main.js:222-227 | past 500 ms the timer resets and ammo grows by one unless at 50; otherwise only the timer grows, by deltaTime; ammo stays in [0, 50] |
| `Simulation.OverlapsBound` | main.js:234-238 | the number of overlapping projectiles is at most the number of projectiles |
| `Simulation.DeadChecksFires` | main.js:239-243 | the lives test passes at least once exactly when a projectile was examined and the lives end at or below 0 |
| `Simulation.CountsIgnoreFlags` | main.js:234-243 | the overlap and lives-test counts depend only on positions, not on the flags |
| `Simulation.ClashKeepsPlace` | main.js:234-244 | the projectile loop does not move the enemy or change its speed or score |
| `Simulation.ClashProjectiles` | main.js:234-238 | in the projectile loop each overlapping projectile is flagged and nothing else about the projectiles changes |
| `Simulation.ClashEnemy` | main.js:234-244 | the enemy loses exactly one life per overlapping projectile and is flagged exactly when the lives test passed; the score grows by the enemy's score once per pass; the game ends exactly when it was over or a pass left the score at 15 or more |
| `Simulation.BattlePlaces` | main.js:229-245 | the enemy loop moves no projectile and keeps their number |
| `Simulation.BattleEnemies` | main.js:229-245 | each enemy ends as its own outcome against the projectiles as they were before the loop, whatever earlier enemies flagged |
| `Simulation.BattleProjectiles` | main.js:229-245 | a projectile ends flagged exactly when it was flagged or some moved enemy overlaps it |
| `Simulation.BattleScore` | main.js:229-245 | the score grows by the sum, over enemies, of score times lives-test passes; the game ends exactly when it was over or some pass happened and the score is 15 or more |
| `Simulation.FlaggedMeans` | main.js:229-245 | an enemy is flagged exactly when it already was, left the screen, touched the player, or had lives at or below 0 in the projectile loop; lives drop only by overlapping projectiles |
| `Simulation.TickInStages` | main.js:220-255 | a frame is the player update, ammo, enemy loop, and filter-and-spawn stages in that order |
| `Simulation.TickProgress` | main.js:220-255 | a frame never lowers the score and never revives a finished game; it ends the game only at 15 or more; it keeps ammo in range, the key list valid and no flagged enemy in the list |
| `Simulation.SurvivorsDescend` | main.js:229-254 | every unflagged enemy of the filtered outcome list descends from the old enemy it came from: same row, speed and score, moved by its speed, no more lives |
| `Simulation.TickEnemies` | main.js:229-254 | after a frame the enemies left are, in order, the unflagged ones among the Outcomes of the old enemies, each descended from an old one; a new enemy is appended and the timer reset exactly when the timer was past 1000 and the game is not over |
| `Simulation.GameOverStopsSpawning` | main.js:248-254 | once the game is over no enemy spawns and the enemy list never grows |
| `Simulation.KeyDownSpec` | main.js:13-20 | keydown keeps the game valid, ignores held and unknown keys, appends a new arrow key, and on the space bar fires, changing only the player and the ammo as `ShootTop` says |
| `Simulation.KeyUpSpec` | main.js:22-28 | keyup keeps the game valid, removes the key and keeps the other keys in order, and changes nothing else |
| `Shooter.Projectile.constructor` | main.js:34-42 | a new projectile is unflagged at the given corner |
| `Shooter.Projectile.Update` | main.js:44-47 | the object's new value is ProjectileStep of its old value |
| `Shooter.LiveProjectiles` | main.js:83 | the filter keeps only projectiles of the list |
| `Shooter.LiveProjectilesSpec` | main.js:83 | filtering the projectile objects is filtering their values |
| `Shooter.LiveProjectilesDistinct` | main.js:83 | filtering keeps distinct projectile objects distinct |
| `Shooter.Enemy.Anguler` | main.js:106-136 | the new enemy's value is `Bodies.Anguler` of the arena and the two draws |
| `Shooter.Enemy.Update` | main.js:114-117 | the object's new value is EnemyStep of its old value |
| `Shooter.LiveEnemies` | main.js:247 | the filter keeps only enemies of the list |
| `Shooter.LiveEnemiesSpec` | main.js:247 | filtering the enemy objects is filtering their values |
| `Shooter.LiveEnemiesDistinct` | main.js:247 | filtering keeps distinct enemy objects distinct |
| `Shooter.Player.constructor` | main.js:62-71 | a new player is at (20, 100) with speed 0 and no projectiles |
| `Shooter.Player.Update` | main.js:73-84 | the player's new value is PlayerStep of the old value and keys; only old projectile objects remain, each owned once |
| `Shooter.Player.Steer` | main.js:73-76 | the speed is the one the held keys select, and y moves by it |
| `Shooter.Player.UpdateProjectiles` | main.js:79-81 | every projectile object is updated once, in order |
| `Shooter.Player.Sweep` | main.js:83 | the new list holds the unflagged projectile objects of the old one, in order, each owned once |
| `Shooter.Player.ShootTop` | main.js:94-100 | the player's value and the game's ammo change as `Bodies.ShootTop` says, and the old projectile objects stay in place |
| `Shooter.Game.constructor` | main.js:200-218 | a new game's value is `Simulation.NewGame`, and the game invariant holds |
| `Shooter.Game.KeyDown` | main.js:13-20 | the keydown listener changes the game as `Simulation.KeyDown` says and keeps the invariant |
| `Shooter.Game.KeyUp` | main.js:22-28 | the keyup listener changes the game as `Simulation.KeyUp` says and keeps the invariant |
| `Shooter.Game.AddEnemy` | main.js:264-267 | exactly one fresh Anguler object is appended, and the others stay distinct |
| `Shooter.Game.ExamineProjectile` | main.js:235-243 | enemy, projectile, score and flag change as `Simulation.Examine` says |
| `Shooter.Game.ExamineAt` | main.js:234-244 | one more projectile of the inner loop has been examined |
| `Shooter.Game.ExamineProjectiles` | main.js:234-244 | the inner loop is `Simulation.Clash` on the objects' values |
| `Shooter.Game.UpdateEnemy` | main.js:230-244 | the body of the outer loop is `Simulation.Clash` of the moved, player-tested enemy |
| `Shooter.Game.UpdateEnemyAt` | main.js:229-245 | one more enemy of the outer loop has been processed |
| `Shooter.Game.FoughtNone` | main.js:229 | before the outer loop, no enemy has been processed and the game equals its starting value |
| `Shooter.Game.FoughtAll` | main.js:229-245 | once every enemy has been processed, the game's value is `Simulation.Fight` of the starting value |
| `Shooter.Game.UpdateEnemies` | main.js:229-245 | the outer loop is `Simulation.Fight` (that is, `Battle`) on the game's value |
| `Shooter.Game.Recharge` | main.js:222-227 | the ammo statements are `Simulation.Recharge` |
| `Shooter.Game.Spawn` | main.js:247-254 | the enemy filter and the spawn timer are `Simulation.Spawn`, and enemy objects stay distinct |
| `Shooter.Game.Update` | main.js:220-255 | one frame changes the game's value as `Simulation.Tick` says and keeps the invariant |
| `Scenarios.FirstShot` | main.js:16-17 | firing at the start leaves 19 rounds and one projectile at (108, 130) |
| `Scenarios.UpAndBack` | main.js:13-28 | pressing and releasing ArrowUp restores the game |
| `Scenarios.FirstShotLifetime` | main.js:44-47 | that projectile is still live after 97 updates (x = 399) and flagged by the 98th (x = 402) |
| `Scenarios.FiveHits` | main.js:234-244 | five hits on a fresh enemy bring its lives to 0, flag it and add 5 points once |
| `Scenarios.TripleScore` | main.js:234-244 | one enemy with 1 life and three overlapping projectiles yields 15 points, ends the game, and its lives end at -2 |
| `Scenarios.Reload` | main.js:222-227 | frames of 250 and 251 ms bring the ammo timer to 501, and the next frame reloads |

## Left out

- Drawing (`draw` of every class, `UI`, main.js:49-52, 86-92, 118-124, 149-197, 257-263): rendering only reads the state.
- The animation loop (`animate`, `requestAnimationFrame`, main.js:277-289): apart from clearing the canvas and drawing, which only touch the screen, it calls `Game.update` with the time since the last frame, which is the `deltaTime` parameter here.
- Registering the listeners (`addEventListener`, and `InputHandler` as an object, main.js:9-30): the listener bodies are `Game.KeyDown` and `Game.KeyUp`.
- `Math.random()`: its draws are parameters. `Tick` and `Game.Update` take them even on frames that spawn nothing.
- `console.log` in `addEnemy` (main.js:266), and the empty classes `Particle`, `Layer` and `Background`.
- JavaScript numbers: coordinates, speeds and timers are exact reals, with no IEEE rounding. Ammo, lives and score are unbounded integers. For example, 228 x 0.2 is exactly 45.6 here.
- The `game` back references (`this.game`): `Player.Update`, `Player.ShootTop`, `Projectile.Update` and the `Enemy.Anguler` constructor receive the game as a parameter instead.
- The base `Enemy` constructor on its own (main.js:106-113): only an `Anguler` is ever created. The model gives the enemy the Anguler size from the start, which is the size `Enemy.update` reads.
- `Bodies.SpawnSpec`: it states the row bound only when 0.9 x height is at least the enemy's height. For smaller arenas the code produces a negative row, which the model computes but no lemma bounds.
