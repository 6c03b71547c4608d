/** Concrete runs of the model on the 500 x 500 arena the page creates. */
module Scenarios {
  import opened Bodies
  import opened Simulation
  import HeldKeys

  /** The space bar on a fresh game fires one projectile from (108, 130) and leaves 19 rounds. */
  lemma FirstShot()
    ensures var t := KeyDown(NewGame(500.0, 500.0), HeldKeys.Fire);
      t.ammo == 19 && t.player.projectiles == [ProjectileState(108.0, 130.0, false)] && t.keys == []
  {
    var g := NewGame(500.0, 500.0);
    assert !HeldKeys.Pushes(g.keys, HeldKeys.Fire);
  }

  /** Holding the up arrow and then releasing it leaves the game as it was. */
  lemma UpAndBack()
    ensures var g := NewGame(500.0, 500.0);
      KeyUp(KeyDown(g, HeldKeys.Up), HeldKeys.Up) == g
  {
    var g := NewGame(500.0, 500.0);
    assert HeldKeys.Pushes(g.keys, HeldKeys.Up);
    assert KeyDown(g, HeldKeys.Up).keys == [HeldKeys.Up];
  }

  /** That first projectile is flagged by its 98th update, when it reaches x = 402, past 80% of
      the width; after 97 updates it sits at x = 399 and is still live. */
  lemma FirstShotLifetime()
    ensures !Flight(ProjectileState(108.0, 130.0, false), 500.0, 97).markedForDeletion
    ensures Flight(ProjectileState(108.0, 130.0, false), 500.0, 98).markedForDeletion
    ensures Flight(ProjectileState(108.0, 130.0, false), 500.0, 98).x == 402.0
  {
    ProjectileFlight(ProjectileState(108.0, 130.0, false), 500.0, 97);
    ProjectileFlight(ProjectileState(108.0, 130.0, false), 500.0, 98);
  }

  /** An enemy with one life left and three projectiles overlapping it: the first kills it, and
      the lives test then passes for every projectile examined, so the enemy's 5 points are
      added three times, its lives end at -2, and the 15 points end the game. */
  lemma TripleScore()
    ensures var e := EnemyState(100.0, 100.0, -1.0, 1, 5, false);
      var p := ProjectileState(100.0, 110.0, false);
      var b := Clash(e, [p, p, p], 0, false);
      && b.score == 15 && b.gameOver
      && b.enemy.lives == -2 && b.enemy.markedForDeletion
      && b.projectiles == [p.(markedForDeletion := true), p.(markedForDeletion := true), p.(markedForDeletion := true)]
  {
    var e := EnemyState(100.0, 100.0, -1.0, 1, 5, false);
    var p := ProjectileState(100.0, 110.0, false);
    var q := p.(markedForDeletion := true);
    assert [p, p, p][..2] == [p, p] && [p, p][..1] == [p] && [p][..0] == [];
    assert Hits(p, e);
    assert Clash(e, [p], 0, false) == Bout(e.(lives := 0, markedForDeletion := true), [q], 5, false);
    assert Clash(e, [p, p], 0, false) == Bout(e.(lives := -1, markedForDeletion := true), [q, q], 10, false);
  }

  /** A fresh enemy (5 lives) meeting five overlapping projectiles in one frame: the fifth
      brings its lives to 0, so it is flagged and its 5 points are added once, which does not
      end the game. */
  lemma FiveHits()
    ensures var e := EnemyState(100.0, 100.0, -1.0, 5, 5, false);
      var p := ProjectileState(100.0, 110.0, false);
      var b := Clash(e, [p, p, p, p, p], 0, false);
      b.enemy.lives == 0 && b.enemy.markedForDeletion && b.score == 5 && !b.gameOver
  {
    var e := EnemyState(100.0, 100.0, -1.0, 5, 5, false);
    var p := ProjectileState(100.0, 110.0, false);
    var ps := [p, p, p, p, p];
    assert ps[..4] == [p, p, p, p] && [p, p, p, p][..3] == [p, p, p];
    assert [p, p, p][..2] == [p, p] && [p, p][..1] == [p] && [p][..0] == [];
    assert Hits(p, e);
    assert Overlaps(e, [p]) == 1 && DeadChecks(e, [p]) == 0;
    assert Overlaps(e, [p, p]) == 2 && DeadChecks(e, [p, p]) == 0;
    assert Overlaps(e, [p, p, p]) == 3 && DeadChecks(e, [p, p, p]) == 0;
    assert Overlaps(e, [p, p, p, p]) == 4 && DeadChecks(e, [p, p, p, p]) == 0;
    assert Overlaps(e, ps) == 5 && DeadChecks(e, ps) == 1;
    ClashEnemy(e, ps, 0, false);
  }

  /** The ammo timer is tested before it grows: frames of 250 and 251 ms bring it to 501, and
      the reload happens on the next frame, whatever its length. A full magazine stays full. */
  lemma Reload()
    ensures Regen(20, 0.0, 250.0) == (20, 250.0)
    ensures Regen(20, 250.0, 251.0) == (20, 501.0)
    ensures Regen(20, 501.0, 16.0) == (21, 0.0)
    ensures Regen(50, 501.0, 16.0) == (50, 0.0)
  {
  }
}
