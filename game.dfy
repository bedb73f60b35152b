/** The Game object: the session state, the per-frame update, firing, spawning and the
    reset-on-loss state machine. */
module Shooter {
  import opened Entities
  import opened Motion
  import opened Collisions

  /** At most this many bullets may be in flight; firing is refused beyond it. */
  const MaxBullets: nat := 3

  /** Spawn positions are `Math.random() * (WIDTH - 30)`, so they lie in [0, SpawnRange). */
  const SpawnRange: real := Width - 30.0

  class Game {
    var player: Player
    var bullets: seq<Bullet>
    var enemies: seq<Enemy>
    var keys: map<string, bool>
    var kills: nat
    var isGameOver: bool

    /** The invariant every call keeps. The game-over flag is raised only inside endGame,
        which resets it before returning, so between calls it is always down. */
    ghost predicate Valid()
      reads this, player
    {
      && player.Valid()
      && !isGameOver
      && |bullets| <= MaxBullets
      && (forall b :: b in bullets ==> b.Standard())
      && (forall e :: e in enemies ==> e.Standard())
    }

    /** The state `reset` leaves, with the given spawn position for its one enemy. */
    ghost predicate Restarted(spawnX: real)
      reads this, player
    {
      && player.x == PlayerStartX
      && bullets == []
      && enemies == [NewEnemy(spawnX, 0.0)]
      && kills == 0
      && !isGameOver
    }

    /** Every enemy is above the player's row. `update` always ends in such a state. */
    ghost predicate RowClear()
      reads this, player
    {
      forall e :: e in enemies ==> e.y < player.y
    }

    /** `new Game()`: a fresh session with one enemy. Listener and timer registration are
        not modelled; `KeyDown`, `KeyUp`, `Frame` and `SpawnTick` are their callbacks. */
    constructor (spawnX: real)
      requires 0.0 <= spawnX < SpawnRange
      ensures Valid() && Restarted(spawnX) && RowClear()
      ensures keys == map[]
    {
      player := new Player();
      bullets := [];
      enemies := [];
      keys := map[];
      kills := 0;
      isGameOver := false;
      new;
      SpawnEnemy(spawnX);
    }

    /** A fresh player, no bullets, no kills, the flag down, and one newly spawned enemy.
        Held keys are kept. */
    method Reset(spawnX: real)
      requires 0.0 <= spawnX < SpawnRange
      modifies this
      ensures Valid() && Restarted(spawnX) && RowClear()
      ensures fresh(player) && keys == old(keys)
    {
      player := new Player();
      bullets := [];
      enemies := [];
      kills := 0;
      isGameOver := false;
      SpawnEnemy(spawnX);
    }

    /** Appends one enemy at the top edge and changes nothing else. */
    method SpawnEnemy(spawnX: real)
      requires Valid() && 0.0 <= spawnX < SpawnRange
      modifies this
      ensures Valid()
      ensures enemies == old(enemies) + [NewEnemy(spawnX, 0.0)]
      ensures player == old(player) && bullets == old(bullets) && keys == old(keys)
      ensures kills == old(kills) && isGameOver == old(isGameOver)
      ensures old(RowClear()) ==> RowClear()
    {
      enemies := enemies + [NewEnemy(spawnX, 0.0)];
    }

    /** The interval callback: spawns unless the game is over. */
    method SpawnTick(spawnX: real)
      requires Valid() && 0.0 <= spawnX < SpawnRange
      modifies this
      ensures Valid()
      ensures enemies == old(enemies) + [NewEnemy(spawnX, 0.0)]
      ensures player == old(player) && bullets == old(bullets) && keys == old(keys) && kills == old(kills)
      ensures old(RowClear()) ==> RowClear()
    {
      if !isGameOver {
        SpawnEnemy(spawnX);
      }
    }

    /** Raises the flag, then resets at once; the blocking alert in between shows nothing
        the model needs. */
    method EndGame(spawnX: real)
      requires 0.0 <= spawnX < SpawnRange
      modifies this
      ensures Valid() && Restarted(spawnX) && RowClear()
      ensures fresh(player) && keys == old(keys)
    {
      isGameOver := true;
      Reset(spawnX);
    }

    /** The keydown callback: records the key as held and, for the space bar, fires when
        fewer than MaxBullets bullets are in flight. */
    method KeyDown(key: string)
      requires Valid()
      modifies this
      ensures Valid()
      ensures keys == old(keys)[key := true]
      ensures if key == FireKey && |old(bullets)| < MaxBullets then
          && |bullets| == |old(bullets)| + 1
          && bullets[..|old(bullets)|] == old(bullets)
          && bullets[|old(bullets)|] == Bullet(player.x + 12.5, PlayerY - 10.0, 5.0, 10.0, 7.0)
        else bullets == old(bullets)
      ensures player == old(player) && enemies == old(enemies) && kills == old(kills)
      ensures old(RowClear()) ==> RowClear()
    {
      keys := keys[key := true];
      if key == FireKey && |bullets| < MaxBullets {
        bullets := player.Shoot(bullets);
      }
    }

    /** The keyup callback: records the key as released. */
    method KeyUp(key: string)
      requires Valid()
      modifies this
      ensures Valid()
      ensures keys == old(keys)[key := false]
      ensures player == old(player) && bullets == old(bullets) && enemies == old(enemies) && kills == old(kills)
      ensures old(RowClear()) ==> RowClear()
    {
      keys := keys[key := false];
    }

    /** `bullets.forEach(bullet => bullet.update())`: every bullet rises by exactly 7. */
    method AdvanceBullets()
      requires Valid()
      modifies this
      ensures Valid()
      ensures bullets == BulletsAdvanced(old(bullets))
      ensures forall i :: 0 <= i < |bullets| ==>
        bullets[i].x == old(bullets)[i].x && bullets[i].y == old(bullets)[i].y - 7.0 && bullets[i].Standard()
      ensures player == old(player) && enemies == old(enemies) && keys == old(keys) && kills == old(kills)
    {
      var i := 0;
      while i < |bullets|
        invariant 0 <= i <= |bullets| == |old(bullets)|
        invariant forall k :: 0 <= k < i ==> bullets[k] == old(bullets)[k].Update()
        invariant forall k :: i <= k < |bullets| ==> bullets[k] == old(bullets)[k]
        invariant forall k :: 0 <= k < |bullets| ==> old(bullets)[k].Standard() && bullets[k].Standard()
        invariant player == old(player) && enemies == old(enemies) && keys == old(keys)
        invariant kills == old(kills) && isGameOver == old(isGameOver)
      {
        bullets := bullets[i := bullets[i].Update()];
        i := i + 1;
      }
    }

    /** `enemies.forEach(enemy => enemy.update())`: every enemy falls by exactly 1. */
    method AdvanceEnemies()
      requires Valid()
      modifies this
      ensures Valid()
      ensures enemies == EnemiesAdvanced(old(enemies))
      ensures forall i :: 0 <= i < |enemies| ==>
        enemies[i].x == old(enemies)[i].x && enemies[i].y == old(enemies)[i].y + 1.0 && enemies[i].Standard()
      ensures player == old(player) && bullets == old(bullets) && keys == old(keys) && kills == old(kills)
    {
      var i := 0;
      while i < |enemies|
        invariant 0 <= i <= |enemies| == |old(enemies)|
        invariant forall k :: 0 <= k < i ==> enemies[k] == old(enemies)[k].Update()
        invariant forall k :: i <= k < |enemies| ==> enemies[k] == old(enemies)[k]
        invariant forall k :: 0 <= k < |enemies| ==> old(enemies)[k].Standard() && enemies[k].Standard()
        invariant player == old(player) && bullets == old(bullets) && keys == old(keys)
        invariant kills == old(kills) && isGameOver == old(isGameOver)
      {
        enemies := enemies[i := enemies[i].Update()];
        i := i + 1;
      }
    }

    /** checkCollisions: every bullet against every enemy, splicing both arrays on each hit
        while the loops go on with the same indices. */
    method CheckCollisions()
      requires Valid()
      modifies this
      ensures Valid()
      ensures Arena(bullets, enemies, kills) == Collisions.CheckCollisions(Arena(old(bullets), old(enemies), old(kills)))
      ensures player == old(player) && keys == old(keys)
    {
      ghost var target := Collisions.CheckCollisions(Arena(bullets, enemies, kills));
      CheckCollisionsOnlyRemoves(Arena(bullets, enemies, kills));
      // forEach visits the indices below the length it started with and skips those the
      // splices have removed; the arrays only shrink here, so that is the current length.
      var bIndex := 0;
      while bIndex < |bullets|
        invariant Resolve(Arena(bullets, enemies, kills), bIndex) == target
        invariant player == old(player) && keys == old(keys) && isGameOver == old(isGameOver)
        decreases |bullets| - bIndex
      {
        var bullet := bullets[bIndex];
        ghost var before := |bullets|;
        var eIndex := 0;
        while eIndex < |enemies|
          invariant Resolve(Sweep(bullet, bIndex, Arena(bullets, enemies, kills), eIndex), bIndex + 1) == target
          invariant |bullets| <= before
          invariant player == old(player) && keys == old(keys) && isGameOver == old(isGameOver)
          decreases |enemies| - eIndex
        {
          if Overlaps(bullet, enemies[eIndex]) {
            bullets := Splice(bullets, bIndex);
            enemies := Splice(enemies, eIndex);
            kills := kills + 1;
          }
          eIndex := eIndex + 1;
        }
        bIndex := bIndex + 1;
      }
    }

    /** The callback of the enemy filter: an enemy out of bounds ends the game and is dropped. */
    method KeepEnemy(e: Enemy, spawnX: real) returns (keep: bool)
      requires Valid() && 0.0 <= spawnX < SpawnRange
      modifies this
      ensures Valid() && keys == old(keys)
      ensures keep == !e.OutOfBounds()
      ensures keep ==> player == old(player) && bullets == old(bullets) && kills == old(kills)
      ensures keep ==> enemies == old(enemies)
      ensures !keep ==> player.x == PlayerStartX && bullets == [] && kills == 0
      ensures !keep ==> enemies == [NewEnemy(spawnX, 0.0)]
    {
      if e.OutOfBounds() {
        EndGame(spawnX);
        return false;
      }
      return true;
    }

    /** The enemy filter of `update`: keeps the enemies not out of bounds and calls endGame
        for each one that is. The filter walks the array it was called on and its result is
        assigned last, so after a loss the enemies are the old survivors, not the enemy the
        reset spawned. */
    method PruneEnemies(spawnX: real)
      requires Valid() && 0.0 <= spawnX < SpawnRange
      modifies this
      ensures Valid() && keys == old(keys)
      ensures enemies == Survivors(old(enemies))
      ensures if AnyOutOfBounds(old(enemies)) then
          player.x == PlayerStartX && bullets == [] && kills == 0
        else
          player == old(player) && bullets == old(bullets) && kills == old(kills)
    {
      var scanned := enemies;
      var kept: seq<Enemy> := [];
      ghost var lost := false;
      var i := 0;
      while i < |scanned|
        invariant 0 <= i <= |scanned|
        invariant kept == Survivors(scanned[..i]) && lost == AnyOutOfBounds(scanned[..i])
        invariant forall e :: e in scanned ==> e.Standard()
        invariant forall e :: e in kept ==> e.Standard()
        invariant Valid() && keys == old(keys)
        invariant lost ==> player.x == PlayerStartX && bullets == [] && kills == 0
        invariant !lost ==> player == old(player) && bullets == old(bullets) && kills == old(kills)
      {
        SurvivorsPrefix(scanned, i);
        var keep := KeepEnemy(scanned[i], spawnX);
        if keep {
          kept := kept + [scanned[i]];
        } else {
          lost := true;
        }
        i := i + 1;
      }
      assert scanned[..i] == scanned;
      enemies := kept;
    }

    /** One frame of simulation, in the source's order: move the player, advance and prune
        the bullets, advance the enemies, resolve collisions, prune the enemies (a loss for
        each one out of bounds) and end the game if an enemy has reached the player's row. */
    method Update(spawnX: real)
      requires Valid() && 0.0 <= spawnX < SpawnRange
      modifies this, player
      ensures Valid() && RowClear() && keys == old(keys)
      ensures
        var hit := Collisions.CheckCollisions(Arena(InBounds(BulletsAdvanced(old(bullets))), EnemiesAdvanced(old(enemies)), old(kills)));
        var kept := Survivors(hit.enemies);
        if Breached(kept, PlayerY) then
          Restarted(spawnX)
        else if AnyOutOfBounds(hit.enemies) then
          player.x == PlayerStartX && bullets == [] && kills == 0 && enemies == kept
        else
          && player.x == Moved(old(player.x), Held(old(keys), LeftKey), Held(old(keys), RightKey))
          && bullets == hit.bullets && enemies == kept && kills == hit.kills
    {
      player.Move(keys);
      AdvanceBullets();
      bullets := InBounds(bullets);
      AdvanceEnemies();
      CheckCollisions();
      PruneEnemies(spawnX);
      if Breached(enemies, player.y) {
        EndGame(spawnX);
      }
    }

    /** The animation-frame callback: simulates one frame unless the game is over. */
    method Frame(spawnX: real)
      requires Valid() && 0.0 <= spawnX < SpawnRange
      modifies this, player
      ensures Valid() && RowClear() && keys == old(keys)
    {
      if !isGameOver {
        Update(spawnX);
      }
    }
  }

  /** While every enemy is above the player's row, none can fall out of the field in the
      next update: the bottom-edge loss and its filter quirk need an enemy that an earlier
      update would already have reset away. */
  lemma BottomLossNeedsBreach(bs: seq<Bullet>, es: seq<Enemy>, kills: nat)
    requires forall e :: e in es ==> e.Standard() && e.y < PlayerY
    ensures !AnyOutOfBounds(Collisions.CheckCollisions(Arena(bs, EnemiesAdvanced(es), kills)).enemies)
  {
    var moved := EnemiesAdvanced(es);
    CheckCollisionsOnlyRemoves(Arena(bs, moved, kills));
    forall e | e in moved ensures !e.OutOfBounds() {
      var i :| 0 <= i < |moved| && moved[i] == e;
      assert es[i] in es;
    }
  }
}
