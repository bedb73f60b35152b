# Arcade shooter simulation, modelled in Dafny

This project models the simulation core of a one-screen arcade shooter written in
JavaScript (`main.js`). A player ship at the bottom of a 500 by 500 field moves left and
right. It fires at most three bullets at a time upwards at enemies that spawn at the top
and fall one unit per frame. A bullet that overlaps an enemy destroys it and scores a
kill. An enemy that falls out of the field, or reaches the player's row, ends the game,
which then resets at once.

The model has four modules:

- `Entities` (entities.dfy) holds the field constants, the `Bullet` and `Enemy` records
  with their `update` and `outOfBounds`, the strict rectangle overlap test, and the
  `Player` class, whose `Move` updates x in place and whose `Shoot` appends a bullet.
- `Motion` (motion.dfy) holds the per-frame advance of bullets and enemies as values, the
  out-of-bounds filters, and the `some` test for an enemy on the player's row.
- `Collisions` (collisions.dfy) holds `checkCollisions` as a recursive specification. It
  keeps the source's index arithmetic: both arrays are spliced while two nested `forEach`
  loops walk them.
- `Shooter` (game.dfy) holds the `Game` class with the source's fields (`player`,
  `bullets`, `enemies`, `keys`, `kills`, `isGameOver`). Its methods are `reset`,
  `spawnEnemy`, `endGame`, the key callbacks, the per-frame `update` with its loops,
  `checkCollisions` as nested `while` loops proved against the recursive specification,
  and the frame and spawn-timer callbacks.

Coordinates are Dafny `real`s, and every sum the game computes is exact. See "## Left out"
for where the program's doubles can round.

Two behaviours of the code are modelled as written, not as one might expect:

- **Splicing while iterating.** After a hit, `checkCollisions` goes on testing the same
  bullet against the remaining enemies, at indices that have shifted down by one. The
  enemy right behind the destroyed one is never tested against that bullet
  (`Collisions.HitSkipsNextEnemy`). A second hit by the same bullet scores a second kill,
  and its splice removes whatever bullet now sits at the original index, or nothing
  (`Collisions.BulletScoresTwice`). So one bullet can score two kills in one frame.
- **Reset inside the enemy filter.** `endGame` runs inside the `filter` callback. The
  filter's result is assigned after the reset, so after a bottom-edge loss the enemies are
  the old survivors, not the enemy the reset spawned (`Shooter.Game.PruneEnemies`,
  `Shooter.Game.Update`).

The model also shows that the bottom-edge loss never happens in a running game. Every
`update` ends with all enemies above the player's row (y < 460): either none has reached
it, or the game was reset. From such a state no enemy can pass y = 500 in the next frame
(`Shooter.BottomLossNeedsBreach`). A game therefore always ends when an enemy reaches
y = 460, the player's row, and never by an enemy leaving the field at y > 500.

The game-over flag is set only inside `endGame`, which resets it before returning. It is
therefore false between any two calls, and `Shooter.Game.Valid` includes that fact.

## Model

| member | source | states |
|---|---|---|
| `Entities.Held` | main.js:27 | a key is held when its last event was a key-down; a key never pressed reads as not held, as a missing property of `keys` does |
| `Entities.Bullet.Update` | main.js:46-48 | a bullet rises by its speed and nothing else changes; for fired bullets `Motion.BulletStep` and `Shooter.Game.AdvanceBullets` state the 7-unit step |
| `Entities.Bullet.OutOfBounds` | main.js:50-52 | a bullet has left the field once y < 0, strictly above the top edge; a bullet at y = 0 stays |
| `Entities.Enemy.Update` | main.js:72-74 | an enemy falls by its speed and nothing else changes; `Shooter.Game.AdvanceEnemies` states the 1-unit step |
| `Entities.Enemy.OutOfBounds` | main.js:76-78 | an enemy has left the field once y > 500, strictly below the bottom edge; an enemy at y = 500 stays |
| `Entities.Overlaps` | main.js:164-167 | the strict four-comparison hit test; `Entities.OverlapsIffCommonInterior` proves it is open-rectangle intersection |
| `Entities.Moved` | main.js:26-33 | the x that `move` leaves: the left step is tested first, and the right step is tested on its result; `Entities.MovedStaysOnTrack` proves its bounds |
| `Entities.OverlapsIffCommonInterior` | main.js:164-167 | for rectangles of positive size, the hit test holds exactly when some point lies strictly inside both rectangles (both directions) |
| `Entities.TouchingIsNoHit` | main.js:164-167 | rectangles that only share an edge (for example bullet.x == enemy.x + enemy.width) do not collide |
| `Entities.MovedStaysOnTrack` | main.js:26-33 | from a position in [0, 470] on a multiple of 5, one move keeps the player in [0, 470] on a multiple of 5 and changes x by -5, 0 or +5 |
| `Entities.Player.constructor` | main.js:16-18 | a new player stands at (235, 460), is 30 by 30 and has speed 5 |
| `Entities.Player.Move` | main.js:26-33 | x steps left only if left is held and x > 0, then right only if right is held and x < 470; y is unchanged and the track invariant is kept |
| `Entities.Player.Shoot` | main.js:35-37 | appends exactly one 5 by 10 bullet of speed 7, centred on the player with its bottom edge on the player's top edge, at (x + 12.5, 450) |
| `Entities.NewEnemy` | main.js:56-58 | an enemy is 30 by 30 with speed 1 at the given point |
| `Motion.BulletsAdvanced` | main.js:131 | every bullet after one `update` each, in the same order; `Shooter.Game.AdvanceBullets` is proved to compute it |
| `Motion.InBounds` | main.js:132 | the bullet filter keeps exactly the bullets with y >= 0 that were in the input, and never adds any |
| `Motion.InBoundsCounts` | main.js:132 | the bullet filter keeps every copy of an in-bounds bullet, duplicates included, and no copy of one out of bounds |
| `Motion.BulletStep` | main.js:131-132 | after the bullet step, every kept bullet is an old bullet moved up by exactly 7 with y >= 0, and an old bullet is kept exactly when its y was at least 7 |
| `Motion.InBoundsFixed` | main.js:132 | the bullet filter leaves a sequence unchanged exactly when no bullet in it is out of bounds |
| `Motion.InBoundsIdempotent` | main.js:132 | pruning bullets twice equals pruning once |
| `Motion.EnemiesAdvanced` | main.js:133 | every enemy after one `update` each, in the same order; `Shooter.Game.AdvanceEnemies` is proved to compute it |
| `Motion.Survivors` | main.js:135-141 | the enemy filter keeps exactly the enemies with y <= 500 that were in the input, and never adds any |
| `Motion.SurvivorsCounts` | main.js:135-141 | the enemy filter keeps every copy of an in-bounds enemy, duplicates included, and no copy of one out of bounds |
| `Motion.SurvivorsSnoc` | main.js:135-141 | the filter's result and whether it ends the game extend one enemy at a time, left to right |
| `Motion.SurvivorsFixed` | main.js:135-141 | the enemy filter changes nothing exactly when it does not end the game |
| `Motion.SurvivorsIdempotent` | main.js:135-141 | pruning enemies twice equals pruning once |
| `Motion.Breached` | main.js:142 | some enemy has reached the given row (y >= row); `Shooter.Game.Update` resets exactly when it holds for the player's row after the filter |
| `Collisions.Splice` | main.js:168-169 | `splice(i, 1)` shortens the array by one when i is an index of it, and otherwise leaves it as it is |
| `Collisions.SpliceRemovesOne` | main.js:168-169 | exactly element i leaves, the later elements move down one index, and an index past the end removes nothing |
| `Collisions.Sweep` | main.js:163-172 | one bullet's pass over the enemies: each kill removes exactly one enemy and at most one bullet |
| `Collisions.Resolve` | main.js:161-174 | the whole collision pass: kills gained equal enemies removed, and bullets removed are at most kills gained |
| `Collisions.CheckCollisions` | main.js:161-174 | the collision pass from the first bullet; `Collisions.CheckCollisionsOnlyRemoves` and `Collisions.CheckCollisionsChangesIffHit` state its properties, and `Shooter.Game.CheckCollisions` is proved to compute it |
| `Collisions.CheckCollisionsOnlyRemoves` | main.js:161-174 | checkCollisions adds no bullet and no enemy, and removes one enemy and at most one bullet per kill |
| `Collisions.SweepMisses` | main.js:163-172 | a bullet that overlaps no enemy leaves the arena unchanged |
| `Collisions.ResolveMisses` | main.js:161-174 | with no overlapping bullet/enemy pair, bullets, enemies and kills are unchanged |
| `Collisions.CheckCollisionsChangesIffHit` | main.js:161-174 | checkCollisions changes the state exactly when some bullet overlaps some enemy, and then it scores at least one kill |
| `Collisions.SingleHit` | main.js:161-174 | one bullet over one enemy: both are removed and kills rises by exactly 1 |
| `Collisions.HitSkipsNextEnemy` | main.js:162-172 | after a hit, the enemy that shifts into the destroyed enemy's index is not tested against that bullet and survives even if it overlaps |
| `Collisions.BulletScoresTwice` | main.js:162-172 | a bullet that overlaps the first and third of three enemies scores two kills, and its second splice removes the next bullet untested |
| `Shooter.Game.constructor` | main.js:82-92 | a new game is in the reset state with one enemy at the given x and no keys held |
| `Shooter.Game.Reset` | main.js:94-101 | after reset: the player is at (235, 460), bullets are empty, kills is 0, the flag is down, enemies is one 30 by 30 enemy of speed 1 at (x, 0), and held keys are kept |
| `Shooter.Game.SpawnEnemy` | main.js:103-106 | appends exactly one standard enemy at (x, 0) and changes nothing else |
| `Shooter.Game.SpawnTick` | main.js:108-114 | the interval callback spawns one enemy, because the game-over flag is always down between calls |
| `Shooter.Game.EndGame` | main.js:176-180 | ends in the reset state, with held keys kept |
| `Shooter.Game.KeyDown` | main.js:117-122 | marks the key held; the space bar appends exactly one bullet at (player.x + 12.5, 450) when fewer than 3 are active and otherwise nothing; the bullet count stays at most 3 |
| `Shooter.Game.KeyUp` | main.js:124-126 | marks the key released and changes nothing else |
| `Shooter.Game.AdvanceBullets` | main.js:131 | every bullet moves up by exactly 7, and nothing else changes |
| `Shooter.Game.AdvanceEnemies` | main.js:133 | every enemy moves down by exactly 1, and nothing else changes |
| `Shooter.Game.CheckCollisions` | main.js:161-174 | the nested loops with in-place splices produce exactly the collision specification `Collisions.CheckCollisions` |
| `Shooter.Game.KeepEnemy` | main.js:136-140 | the filter callback keeps an enemy exactly when it is in bounds, and then changes nothing; for one that is not, it ends the game: player at the start, no bullets, kills 0, and enemies is just the reset's new enemy at (x, 0) |
| `Shooter.Game.PruneEnemies` | main.js:135-141 | enemies become the in-bounds survivors of the old array; if any enemy was out of bounds, player, bullets and kills are those of a reset, and otherwise they are unchanged |
| `Shooter.Game.Update` | main.js:129-145 | one frame: moved player, advanced and pruned bullets, advanced enemies, collisions, enemy filter; if a surviving enemy reaches the player's row the result is the reset state; every enemy ends above the player's row |
| `Shooter.Game.Frame` | main.js:182-188 | one animation frame keeps the invariant and leaves every enemy above the player's row |
| `Shooter.BottomLossNeedsBreach` | main.js:135-144 | while every enemy is above the player's row, no enemy can leave through the bottom in the next frame |

## Left out

- Drawing: every `draw` method, `drawScore` and `CTX.clearRect` (main.js:20-24, 41-44, 60-70, 147-159). They only paint the state on a canvas.
- Rescheduling: `requestAnimationFrame` in `frame` and `setInterval` in `spawnEnemyInterval` are browser timers. `Shooter.Game.Frame` and `Shooter.Game.SpawnTick` model one call of each callback.
- Listener registration in `bindEvents`: `Shooter.Game.KeyDown` and `Shooter.Game.KeyUp` are the two listeners, taking the key name.
- The `alert` in `endGame`: a blocking browser dialog with no effect on the state.
- `Math.random`: every spawn takes a caller-supplied x with 0 <= x < 470. `Update` takes one x for all the resets it may perform. Only the last reset's enemy can survive a frame, because the filter result overwrites the others.
- IEEE double arithmetic: positions and sums are exact reals. The player's and bullets' positions are small multiples of halves, so the program computes them exactly too. A spawn x is an arbitrary double, though, and the hit test's `enemy.x + enemy.width` can round for it. For example, with enemy.x = 2.5 + 2^-51 the double sum is 32.5, so a bullet at x = 32.5 misses in the program but hits in the model. Only a test where the edges touch to within rounding can come out differently.
- Object identity of bullets and enemies: their in-place `update` is modelled by replacing the array element with the moved record. No bullet or enemy object is ever reachable from two places. The `bullet` captured by the collision callback is never moved while it is held.
- The `GameObject` base class: `Bullet` and `Enemy` are separate records with the same five fields, and `Player` is a class with those fields.
- Shooter.Game.Frame: its contract states only the invariant and the row property. Its effect is that of `Shooter.Game.Update`, because the game-over flag is always down between calls.
- Shooter.Game.constructor: the listener and timer registration it performs is not modelled (see above).
