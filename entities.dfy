/** The playing field, the three kinds of game object and the rectangle overlap test. */
module Entities {

  /** Size of the field; the origin is the top-left corner and y grows downwards. */
  const Width: real := 500.0
  const Height: real := 500.0

  /** The player's fixed geometry: it starts centred, one body height above the bottom. */
  const PlayerSize: real := 30.0
  const PlayerSpeed: real := 5.0
  const PlayerStartX: real := 235.0
  const PlayerY: real := 460.0

  /** Key names as the browser reports them. */
  const LeftKey: string := "ArrowLeft"
  const RightKey: string := "ArrowRight"
  const FireKey: string := " "

  /** A key counts as held when its last event was a key-down; a key never seen is not held. */
  predicate Held(keys: map<string, bool>, key: string) {
    key in keys && keys[key]
  }

  /** A bullet record: rises `speed` units per tick. */
  datatype Bullet = Bullet(x: real, y: real, width: real, height: real, speed: real)
  {
    /** The record after one call of its `update`. */
    function Update(): Bullet {
      this.(y := y - speed)
    }

    /** Gone through the top edge. */
    predicate OutOfBounds() {
      y < 0.0
    }

    /** The geometry every fired bullet has: 5 by 10, speed 7. */
    predicate Standard() {
      width == 5.0 && height == 10.0 && speed == 7.0
    }
  }

  /** An enemy record: falls `speed` units per tick. */
  datatype Enemy = Enemy(x: real, y: real, width: real, height: real, speed: real)
  {
    /** The record after one call of its `update`. */
    function Update(): Enemy {
      this.(y := y + speed)
    }

    /** Gone through the bottom edge (strictly below the field's height). */
    predicate OutOfBounds() {
      y > Height
    }

    /** The geometry every spawned enemy has: 30 by 30, speed 1. */
    predicate Standard() {
      width == 30.0 && height == 30.0 && speed == 1.0
    }
  }

  /** `new Enemy(x, y)`. */
  function NewEnemy(x: real, y: real): (e: Enemy)
    ensures e.Standard() && e.x == x && e.y == y
  {
    Enemy(x, y, 30.0, 30.0, 1.0)
  }

  /** The hit test of checkCollisions: the two rectangles overlap, with strict comparisons. */
  predicate Overlaps(b: Bullet, e: Enemy) {
    && b.x < e.x + e.width
    && b.x + b.width > e.x
    && b.y < e.y + e.height
    && b.y + b.height > e.y
  }

  /** (px, py) lies strictly inside the rectangle with corner (x, y), width w and height h. */
  ghost predicate Inside(x: real, y: real, w: real, h: real, px: real, py: real) {
    x < px < x + w && y < py < y + h
  }

  function Max(a: real, b: real): real { if a < b then b else a }
  function Min(a: real, b: real): real { if a < b then a else b }

  /** For rectangles of positive size the hit test holds exactly when some point lies
      strictly inside both: it is the open-rectangle intersection test. */
  lemma OverlapsIffCommonInterior(b: Bullet, e: Enemy)
    requires b.width > 0.0 && b.height > 0.0 && e.width > 0.0 && e.height > 0.0
    ensures Overlaps(b, e) <==>
      exists px: real, py: real ::
        Inside(b.x, b.y, b.width, b.height, px, py) && Inside(e.x, e.y, e.width, e.height, px, py)
  {
    if Overlaps(b, e) {
      var px := (Max(b.x, e.x) + Min(b.x + b.width, e.x + e.width)) / 2.0;
      var py := (Max(b.y, e.y) + Min(b.y + b.height, e.y + e.height)) / 2.0;
      assert Inside(b.x, b.y, b.width, b.height, px, py);
      assert Inside(e.x, e.y, e.width, e.height, px, py);
    }
  }

  /** Rectangles that only share an edge do not collide. */
  lemma TouchingIsNoHit(b: Bullet, e: Enemy)
    requires b.x == e.x + e.width || b.x + b.width == e.x || b.y == e.y + e.height || b.y + b.height == e.y
    ensures !Overlaps(b, e)
  {
  }

  /** The positions the player can occupy: multiples of its speed from 0 to Width - 30. */
  predicate OnTrack(x: real) {
    0.0 <= x <= Width - PlayerSize && x == x.Floor as real && x.Floor % 5 == 0
  }

  /** Where `move` leaves the player: the left check runs first, the right check sees its result. */
  function Moved(x: real, left: bool, right: bool): real {
    var x1 := if left && x > 0.0 then x - PlayerSpeed else x;
    if right && x1 < Width - PlayerSize then x1 + PlayerSpeed else x1
  }

  /** Moving never takes the player off the track: it stays in [0, 470] on multiples of 5. */
  lemma MovedStaysOnTrack(x: real, left: bool, right: bool)
    requires OnTrack(x)
    ensures OnTrack(Moved(x, left, right))
    ensures Moved(x, left, right) - x in {-PlayerSpeed, 0.0, PlayerSpeed}
  {
    var k := x.Floor;
    var x1 := if left && x > 0.0 then x - PlayerSpeed else x;
    if left && x > 0.0 {
      assert k >= 5;
      assert x1 == (k - 5) as real;
    }
    assert OnTrack(x1);
    var k1 := x1.Floor;
    if right && x1 < Width - PlayerSize {
      assert k1 <= 465;
      assert x1 + PlayerSpeed == (k1 + 5) as real;
    }
  }

  /** The player: one object for the whole session; `move` updates its x in place. */
  class Player {
    var x: real
    var y: real
    const width: real
    const height: real
    const speed: real

    ghost predicate Valid()
      reads this
    {
      OnTrack(x) && y == PlayerY && width == PlayerSize && height == PlayerSize && speed == PlayerSpeed
    }

    constructor ()
      ensures Valid()
      ensures x == PlayerStartX
    {
      x := Width / 2.0 - 15.0;
      y := Height - 40.0;
      width := 30.0;
      height := 30.0;
      speed := 5.0;
    }

    /** One step left and/or right as the held keys say, never past either edge. */
    method Move(keys: map<string, bool>)
      requires Valid()
      modifies this
      ensures Valid()
      ensures x == Moved(old(x), Held(keys, LeftKey), Held(keys, RightKey))
      ensures y == old(y)
    {
      MovedStaysOnTrack(x, Held(keys, LeftKey), Held(keys, RightKey));
      if Held(keys, LeftKey) && x > 0.0 {
        x := x - speed;
      }
      if Held(keys, RightKey) && x < Width - width {
        x := x + speed;
      }
    }

    /** Appends one bullet, horizontally centred on the player with its bottom edge on the
        player's top edge. */
    method Shoot(bullets: seq<Bullet>) returns (r: seq<Bullet>)
      ensures |r| == |bullets| + 1 && r[..|bullets|] == bullets
      ensures var b := r[|bullets|];
        b.Standard() && b.x + b.width / 2.0 == x + width / 2.0 && b.y + b.height == y
      ensures Valid() ==> r[|bullets|].x == x + 12.5 && r[|bullets|].y == PlayerY - 10.0
    {
      r := bullets + [Bullet(x + width / 2.0 - 2.5, y - 10.0, 5.0, 10.0, 7.0)];
    }
  }
}
