/** The per-tick advance of bullets and enemies and the out-of-bounds filters, as values. */
module Motion {
  import opened Entities

  /** Every bullet after `bullets.forEach(bullet => bullet.update())`. */
  function BulletsAdvanced(bs: seq<Bullet>): seq<Bullet> {
    seq(|bs|, i requires 0 <= i < |bs| => bs[i].Update())
  }

  /** Every enemy after `enemies.forEach(enemy => enemy.update())`. */
  function EnemiesAdvanced(es: seq<Enemy>): seq<Enemy> {
    seq(|es|, i requires 0 <= i < |es| => es[i].Update())
  }

  /** The bullet step of `update` (advance, then prune): a bullet is kept exactly when it is
      still on the field after rising by 7, and every kept bullet is one of the old bullets
      moved up by exactly 7. */
  lemma BulletStep(bs: seq<Bullet>)
    requires forall b :: b in bs ==> b.Standard()
    ensures forall b :: b in InBounds(BulletsAdvanced(bs)) ==>
      b.y >= 0.0 && exists i :: 0 <= i < |bs| && b == bs[i].(y := bs[i].y - 7.0)
    ensures forall i :: 0 <= i < |bs| ==>
      (bs[i].(y := bs[i].y - 7.0) in InBounds(BulletsAdvanced(bs)) <==> bs[i].y >= 7.0)
  {
    var moved := BulletsAdvanced(bs);
    forall b | b in InBounds(moved)
      ensures exists i :: 0 <= i < |bs| && b == bs[i].(y := bs[i].y - 7.0)
    {
      var i :| 0 <= i < |moved| && moved[i] == b;
      assert bs[i] in bs;
    }
    forall i | 0 <= i < |bs|
      ensures bs[i].(y := bs[i].y - 7.0) in InBounds(moved) <==> bs[i].y >= 7.0
    {
      assert bs[i] in bs;
      assert moved[i] == bs[i].(y := bs[i].y - 7.0);
    }
  }

  /** `bullets.filter(bullet => !bullet.outOfBounds())`: the bullets still on the field, in order. */
  function InBounds(bs: seq<Bullet>): (r: seq<Bullet>)
    ensures forall b :: b in r <==> b in bs && !b.OutOfBounds()
    ensures |r| <= |bs|
  {
    if bs == [] then []
    else
      var last := bs[|bs| - 1];
      assert bs == bs[..|bs| - 1] + [last];
      InBounds(bs[..|bs| - 1]) + (if last.OutOfBounds() then [] else [last])
  }

  /** The filter keeps every copy of a bullet still on the field and no copy of one that has
      left it: two identical bullets fired from the same spot both survive. */
  lemma {:induction false} InBoundsCounts(bs: seq<Bullet>)
    ensures forall b :: multiset(InBounds(bs))[b] == if b.OutOfBounds() then 0 else multiset(bs)[b]
  {
    if bs != [] {
      var init := bs[..|bs| - 1];
      assert bs == init + [bs[|bs| - 1]];
      InBoundsCounts(init);
    }
  }

  /** Filtering leaves a sequence alone exactly when none of its bullets is out of bounds. */
  lemma {:induction false} InBoundsFixed(bs: seq<Bullet>)
    ensures InBounds(bs) == bs <==> forall b :: b in bs ==> !b.OutOfBounds()
  {
    if bs != [] && forall b :: b in bs ==> !b.OutOfBounds() {
      var init := bs[..|bs| - 1];
      assert bs == init + [bs[|bs| - 1]];
      InBoundsFixed(init);
    }
  }

  /** Pruning bullets twice is the same as pruning once. */
  lemma InBoundsIdempotent(bs: seq<Bullet>)
    ensures InBounds(InBounds(bs)) == InBounds(bs)
  {
    InBoundsFixed(InBounds(bs));
  }

  /** The enemies the filter of `update` keeps: those not below the bottom edge, in order. */
  function Survivors(es: seq<Enemy>): (r: seq<Enemy>)
    ensures forall e :: e in r <==> e in es && !e.OutOfBounds()
    ensures |r| <= |es|
  {
    if es == [] then []
    else
      var last := es[|es| - 1];
      assert es == es[..|es| - 1] + [last];
      Survivors(es[..|es| - 1]) + (if last.OutOfBounds() then [] else [last])
  }

  /** The filter keeps every copy of an enemy still on the field and no copy of one below it. */
  lemma {:induction false} SurvivorsCounts(es: seq<Enemy>)
    ensures forall e :: multiset(Survivors(es))[e] == if e.OutOfBounds() then 0 else multiset(es)[e]
  {
    if es != [] {
      var init := es[..|es| - 1];
      assert es == init + [es[|es| - 1]];
      SurvivorsCounts(init);
    }
  }

  /** Some enemy is below the bottom edge: the filter of `update` ends the game for it. */
  predicate AnyOutOfBounds(es: seq<Enemy>) {
    exists e :: e in es && e.OutOfBounds()
  }

  /** The filter walks left to right: one more enemy extends both what it keeps and whether
      it has seen an enemy out of bounds. */
  lemma SurvivorsSnoc(es: seq<Enemy>, e: Enemy)
    ensures Survivors(es + [e]) == Survivors(es) + (if e.OutOfBounds() then [] else [e])
    ensures AnyOutOfBounds(es + [e]) == (AnyOutOfBounds(es) || e.OutOfBounds())
  {
    assert (es + [e])[..|es|] == es;
    assert e in es + [e];
  }

  /** SurvivorsSnoc for the filter's progress through a fixed array. */
  lemma SurvivorsPrefix(es: seq<Enemy>, i: nat)
    requires i < |es|
    ensures Survivors(es[..i + 1]) == Survivors(es[..i]) + (if es[i].OutOfBounds() then [] else [es[i]])
    ensures AnyOutOfBounds(es[..i + 1]) == (AnyOutOfBounds(es[..i]) || es[i].OutOfBounds())
  {
    assert es[..i + 1] == es[..i] + [es[i]];
    SurvivorsSnoc(es[..i], es[i]);
  }

  /** The enemy filter keeps everything exactly when it would not end the game. */
  lemma {:induction false} SurvivorsFixed(es: seq<Enemy>)
    ensures Survivors(es) == es <==> !AnyOutOfBounds(es)
  {
    if es != [] && !AnyOutOfBounds(es) {
      var init := es[..|es| - 1];
      assert es == init + [es[|es| - 1]];
      SurvivorsFixed(init);
    }
  }

  /** Pruning enemies twice is the same as pruning once. */
  lemma SurvivorsIdempotent(es: seq<Enemy>)
    ensures Survivors(Survivors(es)) == Survivors(es)
  {
    SurvivorsFixed(Survivors(es));
  }

  /** `enemies.some(enemy => enemy.y >= row)`: an enemy has reached the given row. */
  predicate Breached(es: seq<Enemy>, row: real) {
    exists e :: e in es && e.y >= row
  }
}
