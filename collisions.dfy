/** checkCollisions as a value: two nested forEach loops that splice both arrays while they
    walk them, so that indices shift under the iteration. */
module Collisions {
  import opened Entities

  /** What checkCollisions reads and changes. */
  datatype Arena = Arena(bullets: seq<Bullet>, enemies: seq<Enemy>, kills: nat)

  /** `s.splice(i, 1)`: element i is removed and the later ones move down by one; an index
      past the end removes nothing. */
  function Splice<T>(s: seq<T>, i: nat): (r: seq<T>)
    ensures |r| == if i < |s| then |s| - 1 else |s|
  {
    if i < |s| then s[..i] + s[i + 1..] else s
  }

  /** Exactly element i leaves, and the elements after it move down one index. */
  lemma SpliceRemovesOne<T>(s: seq<T>, i: nat)
    ensures var r := Splice(s, i);
      && (forall k :: 0 <= k < |r| ==> r[k] == if k < i then s[k] else s[k + 1])
      && multiset(r) + (if i < |s| then multiset{s[i]} else multiset{}) == multiset(s)
  {
    if i < |s| {
      assert s == s[..i] + [s[i]] + s[i + 1..];
    }
  }

  /** What one pass may do to the sizes of an arena: every kill removed exactly one enemy and
      at most one bullet. */
  ghost predicate Accounted(a: Arena, r: Arena) {
    && r.kills >= a.kills
    && |a.enemies| == |r.enemies| + (r.kills - a.kills)
    && |r.bullets| <= |a.bullets| <= |r.bullets| + (r.kills - a.kills)
  }

  /** Nothing was added: what is left of each sequence was already in it. */
  ghost predicate Shrunk(a: Arena, r: Arena) {
    && multiset(r.bullets) <= multiset(a.bullets)
    && multiset(r.enemies) <= multiset(a.enemies)
  }

  /** The inner forEach for the bullet taken at index bIndex, from enemy index eIndex on. The
      bullet tested is the one taken when the outer callback started, even after the splice
      has put another bullet at bIndex or left nothing there. */
  function Sweep(bullet: Bullet, bIndex: nat, a: Arena, eIndex: nat): (r: Arena)
    ensures Accounted(a, r)
    decreases |a.enemies| - eIndex
  {
    if eIndex >= |a.enemies| then a
    else if Overlaps(bullet, a.enemies[eIndex]) then
      Sweep(bullet, bIndex, Arena(Splice(a.bullets, bIndex), Splice(a.enemies, eIndex), a.kills + 1), eIndex + 1)
    else
      Sweep(bullet, bIndex, a, eIndex + 1)
  }

  /** The outer forEach from bullet index bIndex on. */
  function Resolve(a: Arena, bIndex: nat): (r: Arena)
    ensures Accounted(a, r)
    decreases |a.bullets| - bIndex
  {
    if bIndex >= |a.bullets| then a
    else Resolve(Sweep(a.bullets[bIndex], bIndex, a, 0), bIndex + 1)
  }

  /** checkCollisions from the start. */
  function CheckCollisions(a: Arena): Arena {
    Resolve(a, 0)
  }

  /** Some bullet and some enemy of the arena overlap. */
  ghost predicate AnyHit(a: Arena) {
    exists b, e :: b in a.bullets && e in a.enemies && Overlaps(b, e)
  }

  lemma ShrunkTransitive(a: Arena, b: Arena, c: Arena)
    requires Shrunk(a, b) && Shrunk(b, c)
    ensures Shrunk(a, c)
  {
  }

  lemma {:induction false} SweepShrinks(bullet: Bullet, bIndex: nat, a: Arena, eIndex: nat)
    ensures Shrunk(a, Sweep(bullet, bIndex, a, eIndex))
    decreases |a.enemies| - eIndex
  {
    var r := Sweep(bullet, bIndex, a, eIndex);
    if eIndex >= |a.enemies| {
      assert r == a;
    } else if Overlaps(bullet, a.enemies[eIndex]) {
      var next := Arena(Splice(a.bullets, bIndex), Splice(a.enemies, eIndex), a.kills + 1);
      assert r == Sweep(bullet, bIndex, next, eIndex + 1);
      SpliceRemovesOne(a.bullets, bIndex);
      SpliceRemovesOne(a.enemies, eIndex);
      SweepShrinks(bullet, bIndex, next, eIndex + 1);
      ShrunkTransitive(a, next, r);
    } else {
      assert r == Sweep(bullet, bIndex, a, eIndex + 1);
      SweepShrinks(bullet, bIndex, a, eIndex + 1);
    }
  }

  lemma {:induction false} ResolveShrinks(a: Arena, bIndex: nat)
    ensures Shrunk(a, Resolve(a, bIndex))
    decreases |a.bullets| - bIndex
  {
    if bIndex < |a.bullets| {
      var s := Sweep(a.bullets[bIndex], bIndex, a, 0);
      SweepShrinks(a.bullets[bIndex], bIndex, a, 0);
      ResolveShrinks(s, bIndex + 1);
      ShrunkTransitive(a, s, Resolve(s, bIndex + 1));
    }
  }

  /** checkCollisions adds no bullet and no enemy; it removes one enemy per kill and at most
      one bullet per kill. */
  lemma CheckCollisionsOnlyRemoves(a: Arena)
    ensures var r := CheckCollisions(a);
      && Accounted(a, r)
      && (forall b :: b in r.bullets ==> b in a.bullets)
      && (forall e :: e in r.enemies ==> e in a.enemies)
  {
    var r := CheckCollisions(a);
    ResolveShrinks(a, 0);
    forall b | b in r.bullets ensures b in a.bullets {
      assert b in multiset(r.bullets);
    }
    forall e | e in r.enemies ensures e in a.enemies {
      assert e in multiset(r.enemies);
    }
  }

  /** A bullet that overlaps no enemy changes nothing. */
  lemma {:induction false} SweepMisses(bullet: Bullet, bIndex: nat, a: Arena, eIndex: nat)
    requires forall e :: e in a.enemies ==> !Overlaps(bullet, e)
    ensures Sweep(bullet, bIndex, a, eIndex) == a
    decreases |a.enemies| - eIndex
  {
    if eIndex < |a.enemies| {
      SweepMisses(bullet, bIndex, a, eIndex + 1);
    }
  }

  /** A sweep that scored nothing changed nothing, and its bullet missed every enemy it saw. */
  lemma {:induction false} SweepScoreless(bullet: Bullet, bIndex: nat, a: Arena, eIndex: nat)
    requires Sweep(bullet, bIndex, a, eIndex).kills == a.kills
    ensures Sweep(bullet, bIndex, a, eIndex) == a
    ensures forall k :: eIndex <= k < |a.enemies| ==> !Overlaps(bullet, a.enemies[k])
    decreases |a.enemies| - eIndex
  {
    if eIndex < |a.enemies| {
      if Overlaps(bullet, a.enemies[eIndex]) {
        assert false;
      } else {
        SweepScoreless(bullet, bIndex, a, eIndex + 1);
      }
    }
  }

  lemma {:induction false} ResolveMisses(a: Arena, bIndex: nat)
    requires !AnyHit(a)
    ensures Resolve(a, bIndex) == a
    decreases |a.bullets| - bIndex
  {
    if bIndex < |a.bullets| {
      SweepMisses(a.bullets[bIndex], bIndex, a, 0);
      ResolveMisses(a, bIndex + 1);
    }
  }

  lemma {:induction false} ResolveScoreless(a: Arena, bIndex: nat)
    requires Resolve(a, bIndex).kills == a.kills
    ensures Resolve(a, bIndex) == a
    ensures forall i, e :: bIndex <= i < |a.bullets| && e in a.enemies ==> !Overlaps(a.bullets[i], e)
    decreases |a.bullets| - bIndex
  {
    if bIndex < |a.bullets| {
      var s := Sweep(a.bullets[bIndex], bIndex, a, 0);
      assert Resolve(a, bIndex).kills >= s.kills;
      SweepScoreless(a.bullets[bIndex], bIndex, a, 0);
      ResolveScoreless(a, bIndex + 1);
    }
  }

  /** checkCollisions changes the arena exactly when some bullet overlaps some enemy, and then
      it scores at least one kill. */
  lemma CheckCollisionsChangesIffHit(a: Arena)
    ensures CheckCollisions(a) == a <==> !AnyHit(a)
    ensures CheckCollisions(a).kills > a.kills <==> AnyHit(a)
  {
    if AnyHit(a) {
      var b, e :| b in a.bullets && e in a.enemies && Overlaps(b, e);
      var i :| 0 <= i < |a.bullets| && a.bullets[i] == b;
      if Resolve(a, 0).kills == a.kills {
        ResolveScoreless(a, 0);
        assert false;
      }
    } else {
      ResolveMisses(a, 0);
    }
  }

  /** One step of the inner forEach when the bullet hits the enemy at eIndex. */
  lemma SweepHits(bullet: Bullet, bIndex: nat, a: Arena, eIndex: nat)
    requires eIndex < |a.enemies| && Overlaps(bullet, a.enemies[eIndex])
    ensures Sweep(bullet, bIndex, a, eIndex)
         == Sweep(bullet, bIndex, Arena(Splice(a.bullets, bIndex), Splice(a.enemies, eIndex), a.kills + 1), eIndex + 1)
  {
  }

  /** One bullet over one enemy: both go and one kill is scored. */
  lemma SingleHit(b: Bullet, e: Enemy, kills: nat)
    requires Overlaps(b, e)
    ensures CheckCollisions(Arena([b], [e], kills)) == Arena([], [], kills + 1)
  {
    var a := Arena([b], [e], kills);
    var after := Arena([], [], kills + 1);
    assert Sweep(b, 0, after, 1) == after;
    assert Sweep(b, 0, a, 0) == after;
  }

  /** After a hit the enemies shift down, so the enemy right behind the one destroyed is never
      tested against that bullet: it survives even when it overlaps. */
  lemma HitSkipsNextEnemy(b: Bullet, e0: Enemy, e1: Enemy, kills: nat)
    requires Overlaps(b, e0)
    ensures CheckCollisions(Arena([b], [e0, e1], kills)) == Arena([], [e1], kills + 1)
  {
    var a := Arena([b], [e0, e1], kills);
    var after := Arena([], [e1], kills + 1);
    assert Splice([b], 0) == [];
    assert Splice([e0, e1], 0) == [e1];
    assert Sweep(b, 0, after, 1) == after;
    assert Sweep(b, 0, a, 0) == after;
    assert Resolve(after, 1) == after;
  }

  /** The bullet keeps testing after its hit: with enemies e0, e1, e2 where it hits e0 and e2,
      it scores two kills, its second splice removes the next bullet before that bullet is
      tested, and e1 is skipped by the shift whatever its position. */
  lemma BulletScoresTwice(b0: Bullet, b1: Bullet, e0: Enemy, e1: Enemy, e2: Enemy, kills: nat)
    requires Overlaps(b0, e0) && Overlaps(b0, e2)
    ensures CheckCollisions(Arena([b0, b1], [e0, e1, e2], kills)) == Arena([], [e1], kills + 2)
  {
    var a := Arena([b0, b1], [e0, e1, e2], kills);
    var after := Arena([], [e1], kills + 2);
    FirstOfThreeHit(b0, b1, e0, e1, e2, kills);
    ThirdOfThreeHit(b0, b1, e1, e2, kills + 1);
    assert Resolve(a, 0) == Resolve(after, 1);
  }

  lemma FirstOfThreeHit(b0: Bullet, b1: Bullet, e0: Enemy, e1: Enemy, e2: Enemy, kills: nat)
    requires Overlaps(b0, e0)
    ensures Sweep(b0, 0, Arena([b0, b1], [e0, e1, e2], kills), 0) == Sweep(b0, 0, Arena([b1], [e1, e2], kills + 1), 1)
  {
    var a := Arena([b0, b1], [e0, e1, e2], kills);
    SweepHits(b0, 0, a, 0);
    assert Splice(a.bullets, 0) == [b1];
    assert Splice(a.enemies, 0) == [e1, e2];
  }

  lemma ThirdOfThreeHit(b0: Bullet, b1: Bullet, e1: Enemy, e2: Enemy, kills: nat)
    requires Overlaps(b0, e2)
    ensures Sweep(b0, 0, Arena([b1], [e1, e2], kills), 1) == Arena([], [e1], kills + 1)
  {
    var mid := Arena([b1], [e1, e2], kills);
    SweepHits(b0, 0, mid, 1);
    assert Splice(mid.bullets, 0) == [];
    assert Splice(mid.enemies, 1) == [e1];
  }


}
