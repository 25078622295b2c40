/**
 * The tile grid of physics.py: `Tile`, its solidity band, Python's `round`
 * and the `Level`, a `width` x `height` grid of tiles whose heights come from
 * a noise function, looked up by real-valued position.
 */
module Tiles {
  import opened Common

  /** A grid cell: integer coordinates and a height sampled from noise. */
  datatype Tile = Tile(x: int, y: int, height: real) {
    /** A tile is walkable only strictly inside the middle height band. */
    predicate Solid() {
      !(0.25 < height < 0.75)
    }
  }

  /** A tile is solid exactly when its height is at most 0.25 or at least 0.75. */
  lemma SolidBand(t: Tile)
    ensures t.Solid() <==> t.height <= 0.25 || t.height >= 0.75
    ensures Tile(t.x, t.y, 0.25).Solid() && Tile(t.x, t.y, 0.75).Solid()
    ensures !Tile(t.x, t.y, 0.5).Solid()
  {
  }

  /**
   * Python's `round` on a number: the nearest integer, and the even one of
   * the two when the number lies exactly half-way between them.
   */
  function RoundHalfEven(r: real): (n: int)
    ensures -0.5 <= r - n as real <= 0.5
    ensures (r - n as real == 0.5 || r - n as real == -0.5) ==> n % 2 == 0
  {
    var f := r.Floor;
    var frac := r - f as real;
    if frac < 0.5 then f
    else if frac > 0.5 then f + 1
    else if f % 2 == 0 then f
    else f + 1
  }

  /** The two properties in the contract of `RoundHalfEven` determine its result. */
  lemma RoundHalfEvenUnique(r: real, n: int)
    requires -0.5 <= r - n as real <= 0.5
    requires (r - n as real == 0.5 || r - n as real == -0.5) ==> n % 2 == 0
    ensures n == RoundHalfEven(r)
  {
  }

  /** Halves round to the even neighbour, in both directions. */
  lemma RoundHalfEvenExamples()
    ensures RoundHalfEven(0.5) == 0 && RoundHalfEven(1.5) == 2 && RoundHalfEven(2.5) == 2
    ensures RoundHalfEven(-0.5) == 0 && RoundHalfEven(-1.5) == -2 && RoundHalfEven(2.4) == 2
  {
    RoundHalfEvenUnique(0.5, 0);
    RoundHalfEvenUnique(1.5, 2);
    RoundHalfEvenUnique(2.5, 2);
    RoundHalfEvenUnique(-0.5, 0);
    RoundHalfEvenUnique(-1.5, -2);
    RoundHalfEvenUnique(2.4, 2);
  }

  function Max0(n: int): nat {
    if n < 0 then 0 else n
  }

  /** Row `i` holds `width` tiles, the one in column `j` at `(j, i)` with height `noise(j, i)`. */
  ghost predicate RowGenerated(row: seq<Tile>, i: int, width: int, noise: (int, int) -> real) {
    |row| == Max0(width) &&
    forall j :: 0 <= j < |row| ==> row[j] == Tile(j, i, noise(j, i))
  }

  /** The grid has `height` rows, each generated as `RowGenerated` says. */
  ghost predicate Generated(grid: seq<seq<Tile>>, width: int, height: int, noise: (int, int) -> real) {
    |grid| == Max0(height) &&
    forall i :: 0 <= i < |grid| ==> RowGenerated(grid[i], i, width, noise)
  }

  /**
   * The nested loops of `Level.__init__`: one row per `i` in `range(height)`,
   * one tile per `j` in `range(width)`, its height sampled at `(j, i)`.
   */
  method BuildGrid(width: int, height: int, noise: (int, int) -> real) returns (grid: seq<seq<Tile>>)
    ensures Generated(grid, width, height, noise)
  {
    grid := [];
    var i := 0;
    while i < height
      invariant 0 <= i <= Max0(height)
      invariant |grid| == i
      invariant forall r :: 0 <= r < i ==> RowGenerated(grid[r], r, width, noise)
    {
      var row: seq<Tile> := [];
      var j := 0;
      while j < width
        invariant 0 <= j <= Max0(width)
        invariant |row| == j
        invariant forall c :: 0 <= c < j ==> row[c] == Tile(c, i, noise(c, i))
      {
        var h := noise(j, i);
        row := row + [Tile(j, i, h)];
        j := j + 1;
      }
      grid := grid + [row];
      i := i + 1;
    }
  }

  /**
   * The level: built once from `width`, `height` and the noise function
   * (`scaled_octave_noise_2d(3, .3, .05, 0, 1, j, i)`), immutable afterwards.
   */
  class Level {
    const width: int
    const height: int
    const noise: (int, int) -> real
    const grid: seq<seq<Tile>>

    ghost predicate Valid() {
      Generated(grid, width, height, noise)
    }

    constructor(width: int, height: int, noise: (int, int) -> real)
      ensures Valid()
      ensures this.width == width && this.height == height && this.noise == noise
    {
      var g := BuildGrid(width, height, noise);
      this.width := width;
      this.height := height;
      this.noise := noise;
      this.grid := g;
    }

    /** `level[x, y]`: absent outside the grid, otherwise the tile at the rounded position. */
    function Lookup(x: real, y: real): (r: Option<Tile>)
      requires Valid()
      ensures r.None? <==> !(0 <= RoundHalfEven(x) < width && 0 <= RoundHalfEven(y) < height)
      ensures r.Some? ==> r.value.x == RoundHalfEven(x) && r.value.y == RoundHalfEven(y)
      ensures r.Some? ==> r.value.height == noise(r.value.x, r.value.y)
    {
      var i, j := RoundHalfEven(x), RoundHalfEven(y);
      if !(0 <= i < width) || !(0 <= j < height) then None
      else
        assert RowGenerated(grid[j], j, width, noise);
        Some(grid[j][i])
    }

    /** `size`: `(width, height)`, the dimensions the grid was generated with. */
    function Size(): (r: (int, int))
      requires Valid()
      ensures r == (width, height)
      ensures |grid| == Max0(r.1)
      ensures forall i :: 0 <= i < |grid| ==> |grid[i]| == Max0(r.0)
    {
      (width, height)
    }
  }
}
