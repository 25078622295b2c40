/**
 * The per-frame updates of graphics.py: the animation cursor of `Animator`,
 * the facing of `Orientator` and the dead-zone follow of `Tracker`. Drawing
 * is not modelled; the sprites keep only the state these updates read and
 * write, and the target an update looks at is passed in as the value read.
 */
module Graphics {
  import opened Common
  import opened Vectors

  /** A sub-rectangle of the texture: left, top, width, height. */
  datatype Rect = Rect(left: real, top: real, width: real, height: real)

  /** `Frame(framing, duration)`: where a frame lies in the texture and how long it shows. */
  datatype Frame = Frame(framing: (real, real), duration: real)

  /** The exception an out-of-range list index raises. */
  datatype IndexError = IndexError

  // ================================================================ Animator

  /** A sprite whose texture rectangle follows a script of frames. */
  class AnimatedSprite {
    const offset: (real, real)
    const size: (real, real)
    const script: seq<Frame>
    var frame: nat
    var textureRectangle: Rect

    /** `rectangle()`: the tile at `offset`, moved by the framing of the current frame. */
    function Rectangle(): (r: Rect)
      reads this
      requires frame < |script|
      ensures r.left == offset.0 + script[frame].framing.0 && r.top == offset.1 + script[frame].framing.1
      ensures r.width == size.0 && r.height == size.1
    {
      Rect(offset.0 + script[frame].framing.0, offset.1 + script[frame].framing.1, size.0, size.1)
    }
  }

  /** Every frame shows for a positive time. */
  predicate PositiveDurations(script: seq<Frame>) {
    forall k :: 0 <= k < |script| ==> script[k].duration > 0.0
  }

  /** The shortest duration of the script. */
  function MinDuration(script: seq<Frame>): (m: real)
    requires |script| > 0
    ensures forall k :: 0 <= k < |script| ==> m <= script[k].duration
    ensures PositiveDurations(script) ==> m > 0.0
  {
    if |script| == 1 then script[0].duration
    else
      var rest := MinDuration(script[1..]);
      assert forall k :: 1 <= k < |script| ==> script[k] == script[1..][k - 1];
      if script[0].duration < rest then script[0].duration else rest
  }

  /** How many shortest frames fit in `e`: a bound on the frames the loop can still skip. */
  function Budget(script: seq<Frame>, e: real): nat
    requires |script| > 0 && PositiveDurations(script)
  {
    if e <= 0.0 then 0 else (e / MinDuration(script)).Floor
  }

  /** Skipping a frame uses up at least one shortest frame of the budget. */
  lemma BudgetDecreases(script: seq<Frame>, c: nat, e: real)
    requires c < |script| && PositiveDurations(script)
    requires e > script[c].duration
    ensures Budget(script, e - script[c].duration) < Budget(script, e)
  {
    var m, dur := MinDuration(script), script[c].duration;
    assert 0.0 < m <= dur;
    var q := e / m;
    QuotientTimes(e, m);
    if q < 1.0 {
      PositiveProduct(1.0 - q, m);
    }
    var e' := e - dur;
    if e' > 0.0 {
      StepDown(e, e', dur, m);
      assert (e' / m).Floor as real <= e' / m;
    }
  }

  /** Taking away at least `m` lowers the quotient by `m` by at least one. */
  lemma StepDown(e: real, e': real, dur: real, m: real)
    requires 0.0 < m <= dur && e' == e - dur
    ensures e' / m <= e / m - 1.0
  {
    var q, q' := e / m, e' / m;
    QuotientTimes(e, m);
    QuotientTimes(e', m);
    assert (q - q') * m == dur;
    if q - q' < 1.0 {
      PositiveProduct(1.0 - (q - q'), m);
    }
  }

  /**
   * The loop of `update` from cursor `c` with `e` seconds pending: while `e`
   * exceeds the current frame's duration, subtract it and move to the next
   * frame, wrapping at the end of the script. Returns the final cursor, the
   * time left and the number of frames advanced.
   */
  function Skip(script: seq<Frame>, c: nat, e: real): (r: (nat, real, nat))
    requires c < |script| && PositiveDurations(script)
    ensures r.0 < |script| && r.1 <= script[r.0].duration
    ensures r.2 == 0 <==> e <= script[c].duration
    ensures r.2 == 0 ==> r.0 == c && r.1 == e
    decreases Budget(script, e)
  {
    if e > script[c].duration then
      BudgetDecreases(script, c, e);
      var r := Skip(script, (c + 1) % |script|, e - script[c].duration);
      (r.0, r.1, r.2 + 1)
    else
      (c, e, 0)
  }

  /** The total duration of the `k` frames shown from cursor `c` on, wrapping. */
  function Skipped(script: seq<Frame>, c: nat, k: nat): real
    requires c < |script|
    decreases k
  {
    if k == 0 then 0.0 else script[c].duration + Skipped(script, (c + 1) % |script|, k - 1)
  }

  /**
   * After advancing `k` frames the cursor is `k` places further on, modulo
   * the script's length, and the pending time has dropped by exactly the
   * durations of the frames skipped.
   */
  lemma {:induction false} SkipAccounts(script: seq<Frame>, c: nat, e: real)
    requires c < |script| && PositiveDurations(script)
    ensures Skip(script, c, e).0 == (c + Skip(script, c, e).2) % |script|
    ensures Skip(script, c, e).1 == e - Skipped(script, c, Skip(script, c, e).2)
    decreases Budget(script, e)
  {
    if e > script[c].duration {
      var n, c' := |script|, (c + 1) % |script|;
      BudgetDecreases(script, c, e);
      SkipAccounts(script, c', e - script[c].duration);
      var k := Skip(script, c', e - script[c].duration).2;
      ModAddReduce(c + 1, k, n);
    }
  }

  lemma MulAtLeast(x: int, n: int)
    requires x >= 1 && n > 0
    ensures x * n >= n
  {
    assert x * n - n == (x - 1) * n;
  }

  lemma DivModUnique(a: int, q: int, r: int, n: int)
    requires n > 0 && 0 <= r < n && a == q * n + r
    ensures a % n == r
  {
    var q', r' := a / n, a % n;
    assert a == q' * n + r';
    assert (q - q') * n == r' - r;
    if q' < q {
      MulAtLeast(q - q', n);
    } else if q' > q {
      assert (q' - q) * n == r - r';
      MulAtLeast(q' - q, n);
    }
  }

  /** Reducing a summand first does not change the remainder. */
  lemma ModAddReduce(a: nat, b: nat, n: nat)
    requires n > 0
    ensures (a % n + b) % n == (a + b) % n
  {
    var q, r := a / n, a % n;
    var q2, r2 := (r + b) / n, (r + b) % n;
    assert r + b == q2 * n + r2;
    assert a + b == (q + q2) * n + r2 by {
      assert a == q * n + r;
      assert (q + q2) * n == q * n + q2 * n;
    }
    DivModUnique(a + b, q + q2, r2, n);
  }

  /**
   * The loop advanced over exactly the frames whose duration the pending
   * time exceeded: before each of the `k` advances the time still pending
   * exceeded the current frame's duration.
   */
  lemma {:induction false} SkipMinimal(script: seq<Frame>, c: nat, e: real, j: nat)
    requires c < |script| && PositiveDurations(script)
    requires j < Skip(script, c, e).2
    ensures e - Skipped(script, c, j) > script[(c + j) % |script|].duration
    decreases j
  {
    if j > 0 {
      var c', e' := (c + 1) % |script|, e - script[c].duration;
      assert Skip(script, c, e).2 == Skip(script, c', e').2 + 1;
      SkipMinimal(script, c', e', j - 1);
      MinimalStep(script, c, e, j);
    } else {
      DivModUnique(c, 0, c, |script|);
    }
  }

  lemma MinimalStep(script: seq<Frame>, c: nat, e: real, j: nat)
    requires c < |script| && 0 < j
    requires e - script[c].duration - Skipped(script, (c + 1) % |script|, j - 1)
      > script[((c + 1) % |script| + (j - 1)) % |script|].duration
    ensures e - Skipped(script, c, j) > script[(c + j) % |script|].duration
  {
    ModAddReduce(c + 1, j - 1, |script|);
  }

  /** From cursor `c` with `e` pending, the loop still ends where `s` says, after the `k` frames already skipped. */
  ghost predicate SkipsTo(script: seq<Frame>, c: nat, e: real, s: (nat, real, nat), k: nat)
    requires c < |script| && PositiveDurations(script)
  {
    var t := Skip(script, c, e);
    t.0 == s.0 && t.1 == s.1 && t.2 + k == s.2
  }

  /** One pass of the loop keeps `SkipsTo`, with one more frame skipped. */
  lemma SkipsToStep(script: seq<Frame>, c: nat, e: real, s: (nat, real, nat), k: nat)
    requires c < |script| && PositiveDurations(script)
    requires e > script[c].duration && SkipsTo(script, c, e, s, k)
    ensures SkipsTo(script, (c + 1) % |script|, e - script[c].duration, s, k + 1)
  {
  }

  /** When the loop stops, the cursor and the time left are the ones `s` names, and `k` frames were skipped. */
  lemma SkipsToDone(script: seq<Frame>, c: nat, e: real, s: (nat, real, nat), k: nat)
    requires c < |script| && PositiveDurations(script)
    requires e <= script[c].duration && SkipsTo(script, c, e, s, k)
    ensures s == (c, e, k)
  {
  }

  /**
   * The loop of `Animator.update`: from cursor `c` with `e` seconds pending,
   * skip frames while `e` exceeds the current one's duration. `dirty` says
   * whether any frame was skipped.
   */
  method SkipFrames(script: seq<Frame>, c0: nat, e0: real) returns (c: nat, e: real, dirty: bool)
    requires c0 < |script| && PositiveDurations(script)
    ensures (c, e) == (Skip(script, c0, e0).0, Skip(script, c0, e0).1)
    ensures dirty <==> Skip(script, c0, e0).2 > 0
  {
    c, e := c0, e0;
    ghost var s := Skip(script, c, e);
    ghost var k := 0;
    var frame := script[c];
    dirty := false;
    while e > frame.duration
      invariant c < |script| && frame == script[c]
      invariant SkipsTo(script, c, e, s, k)
      invariant dirty <==> k > 0
      decreases Budget(script, e)
    {
      BudgetDecreases(script, c, e);
      SkipsToStep(script, c, e, s, k);
      c := (c + 1) % |script|;
      e := e - frame.duration;
      frame := script[c];
      dirty := true;
      k := k + 1;
    }
    SkipsToDone(script, c, e, s, k);
  }

  /** `Animator`: the frame of the script a sprite shows, and the time spent on it. */
  class Animator {
    const sprite: AnimatedSprite
    var cursor: nat
    var elapsed: real

    constructor(sprite: AnimatedSprite)
      ensures this.sprite == sprite && cursor == 0 && elapsed == 0.0
    {
      this.sprite := sprite;
      cursor, elapsed := 0, 0.0;
    }

    /**
     * `update(delta)`: adds `delta` to the time spent, then skips frames as
     * `Skip` does; when it skipped any, the sprite shows the new frame. An
     * empty script raises `IndexError` once the time has been added.
     */
    method Update(delta: real) returns (r: Result<(), IndexError>)
      requires PositiveDurations(sprite.script)
      modifies this, sprite
      ensures r.Err? <==> old(cursor) >= |sprite.script|
      ensures r.Err? ==> cursor == old(cursor) && elapsed == old(elapsed) + delta
      ensures r.Err? ==> unchanged(sprite)
      ensures r.Ok? ==>
        var s := Skip(sprite.script, old(cursor), old(elapsed) + delta);
        cursor == s.0 && elapsed == s.1 &&
        (s.2 > 0 ==> sprite.frame == cursor && sprite.textureRectangle == sprite.Rectangle()) &&
        (s.2 == 0 ==> unchanged(sprite))
    {
      elapsed := elapsed + delta;
      if cursor >= |sprite.script| {
        return Err(IndexError);
      }
      var dirty;
      cursor, elapsed, dirty := SkipFrames(sprite.script, cursor, elapsed);
      if dirty {
        sprite.frame := cursor;
        sprite.textureRectangle := sprite.Rectangle();
      }
      r := Ok(());
    }
  }

  // ================================================================ Orientator

  /** A sprite that shows one tile of an atlas per orientation. */
  class OrientedSprite {
    const offset: (real, real)
    const size: (real, real)
    const atlas: seq<(real, real)>
    var orientation: nat
    var textureRectangle: Rect

    /**
     * `rectangle()`: the tile at `offset`, moved by the atlas entry of the
     * orientation; `None` where the atlas has no such entry (an `IndexError`).
     */
    function Rectangle(): (r: Option<Rect>)
      reads this
      ensures r.Some? <==> orientation < |atlas|
      ensures r.Some? ==> r.value.left == offset.0 + atlas[orientation].0 && r.value.top == offset.1 + atlas[orientation].1
      ensures r.Some? ==> r.value.width == size.0 && r.value.height == size.1
    {
      if orientation < |atlas| then
        Some(Rect(offset.0 + atlas[orientation].0, offset.1 + atlas[orientation].1, size.0, size.1))
      else
        None
    }
  }

  /** The directions `update` recognises, in the order it tests them: up, left, right, down. */
  function Direction(i: nat): Vector
    requires i < 4
  {
    [Vector(0.0, 1.0), Vector(-1.0, 0.0), Vector(1.0, 0.0), Vector(0.0, -1.0)][i]
  }

  /**
   * The orientation a direction selects: the index of the recognised
   * direction it equals (within `E`), or `current` when it equals none.
   */
  function Facing(direction: Vector, current: nat): (r: nat)
    ensures r < 4 || r == current
  {
    if Eq(direction, Direction(0)) then 0
    else if Eq(direction, Direction(1)) then 1
    else if Eq(direction, Direction(2)) then 2
    else if Eq(direction, Direction(3)) then 3
    else current
  }

  /** No direction equals two of the recognised ones: they lie a whole unit apart. */
  lemma DirectionsExclusive(v: Vector, i: nat, j: nat)
    requires i < j < 4
    ensures !(Eq(v, Direction(i)) && Eq(v, Direction(j)))
  {
  }

  /**
   * Each recognised direction selects its own index, whatever the current
   * orientation; a direction equal to none of them keeps the current one.
   */
  lemma FacingTable(v: Vector, current: nat)
    ensures Facing(Direction(0), current) == 0 && Facing(Direction(1), current) == 1
    ensures Facing(Direction(2), current) == 2 && Facing(Direction(3), current) == 3
    ensures (forall i :: 0 <= i < 4 ==> !Eq(v, Direction(i))) ==> Facing(v, current) == current
    ensures forall i :: 0 <= i < 4 && Eq(v, Direction(i)) ==> Facing(v, current) == i
  {
    EqReflexiveSymmetric(Direction(0), Direction(0));
    EqReflexiveSymmetric(Direction(1), Direction(1));
    EqReflexiveSymmetric(Direction(2), Direction(2));
    EqReflexiveSymmetric(Direction(3), Direction(3));
    forall i | 0 <= i < 4 && Eq(v, Direction(i)) ensures Facing(v, current) == i {
      forall j | 0 <= j < i ensures !Eq(v, Direction(j)) {
        DirectionsExclusive(v, j, i);
      }
    }
  }

  /** `Orientator`: turns a sprite to the direction its target faces. */
  class Orientator {
    const sprite: OrientedSprite

    constructor(sprite: OrientedSprite)
      ensures this.sprite == sprite
    {
      this.sprite := sprite;
    }

    /**
     * `update`, given the target's `direction`: four tests in turn, each
     * setting the orientation on a match, then the texture rectangle is
     * recomputed; `IndexError` when the atlas has no entry for the
     * orientation, after the orientation has been set.
     */
    method Update(direction: Vector) returns (r: Result<(), IndexError>)
      modifies sprite
      ensures sprite.orientation == Facing(direction, old(sprite.orientation))
      ensures r.Ok? <==> sprite.orientation < |sprite.atlas|
      ensures r.Ok? ==> sprite.textureRectangle == sprite.Rectangle().value
      ensures r.Err? ==> sprite.textureRectangle == old(sprite.textureRectangle)
    {
      ghost var o0 := sprite.orientation;
      if Eq(direction, Vector(0.0, 1.0)) {
        sprite.orientation := 0;
      }
      if Eq(direction, Vector(-1.0, 0.0)) {
        sprite.orientation := 1;
      }
      if Eq(direction, Vector(1.0, 0.0)) {
        sprite.orientation := 2;
      }
      if Eq(direction, Vector(0.0, -1.0)) {
        sprite.orientation := 3;
      }
      FacingTable(direction, o0);
      var rect := sprite.Rectangle();
      if rect.None? {
        return Err(IndexError);
      }
      sprite.textureRectangle := rect.value;
      r := Ok(());
    }
  }

  // ================================================================ Tracker

  /** `d.norm() >= margin` without the square root: always for a non-positive margin, else on squares. */
  predicate NormAtLeast(d: Vector, margin: real) {
    margin <= 0.0 || Norm2(d) >= margin * margin
  }

  /** `NormAtLeast` is the source's test on the norm, whenever the norm is supplied. */
  lemma NormAtLeastIsNormTest(d: Vector, margin: real, n: real)
    requires IsNorm(d, n)
    ensures NormAtLeast(d, margin) <==> n >= margin
  {
    if margin > 0.0 {
      if n >= margin {
        SquareAtLeast(n, margin);
      } else {
        SquareCompare(n, margin, margin * margin);
        assert !(margin <= n);
      }
    }
  }

  /**
   * One step of the dead-zone follow: a position within `margin` of the
   * target stays where it is; otherwise it moves by the fraction `delta` of
   * the way, so the gap to the target shrinks by the factor `1 - delta`.
   */
  function Follow(p: Vector, target: Vector, margin: real, delta: real): (r: Vector)
    ensures !NormAtLeast(Sub(target, Vec(p)), margin) ==> r == p
    ensures NormAtLeast(Sub(target, Vec(p)), margin) ==>
      Sub(target, Vec(r)) == Mul(Sub(target, Vec(p)), Scalar(1.0 - delta))
  {
    var d := Sub(target, Vec(p));
    if NormAtLeast(d, margin) then Add(p, Vec(Mul(d, Scalar(delta)))) else p
  }

  /** `Tracker`: a camera position that follows a target with a dead zone. */
  class Tracker {
    const margin: real
    /** Its own copy of the target's position at construction, updated in place. */
    const position: MutableVector

    constructor(target: Vector, margin: real)
      ensures fresh(position) && position.Value() == target && this.margin == margin
    {
      this.margin := margin;
      position := new MutableVector(target);
    }

    /** `update(delta)`, given the target's position: `position += d * delta` outside the margin, `+= 0` inside. */
    method Update(delta: real, target: Vector)
      modifies position
      ensures position.Value() == Follow(old(position.Value()), target, margin, delta)
    {
      var d := Sub(target, Vec(position.Value()));
      var step := if NormAtLeast(d, margin) then Vec(Mul(d, Scalar(delta))) else Scalar(0.0);
      var self := position.AddInPlace(step);
    }
  }
}
