/**
 * The placeholder enrichment of the heuristic run: an importance score and a pair of
 * zoom hints drawn with `Math.floor(Math.random() * n)`. A value of `Math.random()` is
 * modelled as an exact real in [0, 1); the random coordinates are not modelled.
 */
module HeuristicEnrichment {

  /** A value `Math.random()` can return. */
  type Unit = r: real | 0.0 <= r < 1.0

  /** Scaling a positive number by a factor below one makes it smaller. */
  lemma ScaleBelow(r: real, y: real)
    requires 0.0 <= r < 1.0 && y > 0.0
    ensures r * y < y
  {
    assert y - r * y == (1.0 - r) * y;
  }

  /** `Math.floor(r * n)`: an integer draw from the half-open range [0, n). */
  function Below(r: Unit, n: nat): (d: int)
    requires n > 0
    ensures 0 <= d < n
  {
    ScaleBelow(r, n as real);
    (r * n as real).Floor
  }

  /** Every value of [0, n) is drawn by some value of `Math.random()`. */
  lemma BelowReaches(n: nat, d: nat)
    requires d < n
    ensures 0.0 <= d as real / n as real < 1.0
    ensures Below(d as real / n as real, n) == d
  {
    var r: real := d as real / n as real;
    assert r * n as real == d as real;
  }

  /** `Math.floor(Math.random() * 100) + 1`: the score lies in [1, 100]. */
  function Importance(r: Unit): (v: int)
    ensures 1 <= v <= 100
  {
    Below(r, 100) + 1
  }

  /** `Math.floor(Math.random() * 5) + 1`: the coarsest zoom lies in [1, 5]. */
  function MinZoom(r: Unit): (z: int)
    ensures 1 <= z <= 5
  {
    Below(r, 5) + 1
  }

  /**
   * `Math.floor(Math.random() * (20 - minZoom)) + minZoom`. The result is at least
   * minZoom and never reaches 20: the largest zoom the formula produces is 19.
   */
  function MaxZoom(r: Unit, minZoom: int): (z: int)
    requires 1 <= minZoom <= 5
    ensures minZoom <= z <= 19
  {
    Below(r, 20 - minZoom) + minZoom
  }

  /** Each score of [1, 100] and each zoom pair with minZoom <= maxZoom <= 19 can be drawn. */
  lemma DrawsCoverTheirRanges(v: int, minZoom: int, maxZoom: int)
    requires 1 <= v <= 100
    requires 1 <= minZoom <= 5 && minZoom <= maxZoom <= 19
    ensures exists r: Unit :: Importance(r) == v
    ensures exists r: Unit, q: Unit :: MinZoom(r) == minZoom && MaxZoom(q, MinZoom(r)) == maxZoom
  {
    BelowReaches(100, v - 1);
    var r: Unit := (v - 1) as real / 100 as real;
    assert Importance(r) == v;
    BelowReaches(5, minZoom - 1);
    var r2: Unit := (minZoom - 1) as real / 5 as real;
    assert MinZoom(r2) == minZoom;
    BelowReaches(20 - minZoom, maxZoom - minZoom);
    var q: Unit := (maxZoom - minZoom) as real / (20 - minZoom) as real;
    assert MaxZoom(q, MinZoom(r2)) == maxZoom;
  }
}
