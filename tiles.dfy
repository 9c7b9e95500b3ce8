/**
  Tiles and their five-axis positions (time, channel, z, y, x).

  The module that defines `Tile` and `TilePosition` in the repository is not
  part of this model; the fields below are the ones the alignment and
  stitching code reads and writes.  The same five-component record also
  stands for the plain 5-tuples the source uses as shapes and extents.
 */
module Tiles {
  import opened Outcomes

  /** A pixel extent of an image: at least one pixel. */
  type Extent = n: int | n > 0 witness 1

  datatype TilePosition = TilePosition(time: int, channel: int, z: int, y: int, x: int)

  /** `tile.shape`, the (height, width) of the tile image. */
  datatype Shape = Shape(h: Extent, w: Extent)

  datatype Tile = Tile(
    path: string,
    shape: Shape,
    position: TilePosition,
    backgroundCorrectionMatrixPath: Option<string>,
    illuminationCorrectionMatrixPath: Option<string>
  )

  /** Component `a` of a position, in the order (time, channel, z, y, x). */
  function Axis(p: TilePosition, a: nat): int
    requires a < 5
  {
    if a == 0 then p.time
    else if a == 1 then p.channel
    else if a == 2 then p.z
    else if a == 3 then p.y
    else p.x
  }

  function Add(p: TilePosition, q: TilePosition): (r: TilePosition)
    ensures forall a | 0 <= a < 5 :: Axis(r, a) == Axis(p, a) + Axis(q, a)
  {
    TilePosition(p.time + q.time, p.channel + q.channel, p.z + q.z, p.y + q.y, p.x + q.x)
  }

  function Sub(p: TilePosition, q: TilePosition): (r: TilePosition)
    ensures forall a | 0 <= a < 5 :: Axis(r, a) == Axis(p, a) - Axis(q, a)
  {
    TilePosition(p.time - q.time, p.channel - q.channel, p.z - q.z, p.y - q.y, p.x - q.x)
  }

  function Min(u: int, v: int): int { if u <= v then u else v }
  function Max(u: int, v: int): int { if u >= v then u else v }

  function MinPos(p: TilePosition, q: TilePosition): (r: TilePosition)
    ensures forall a | 0 <= a < 5 :: Axis(r, a) == Min(Axis(p, a), Axis(q, a))
  {
    TilePosition(Min(p.time, q.time), Min(p.channel, q.channel), Min(p.z, q.z), Min(p.y, q.y), Min(p.x, q.x))
  }

  function MaxPos(p: TilePosition, q: TilePosition): (r: TilePosition)
    ensures forall a | 0 <= a < 5 :: Axis(r, a) == Max(Axis(p, a), Axis(q, a))
  {
    TilePosition(Max(p.time, q.time), Max(p.channel, q.channel), Max(p.z, q.z), Max(p.y, q.y), Max(p.x, q.x))
  }

  /** Component-wise `p <= q`. */
  predicate LessEq(p: TilePosition, q: TilePosition) {
    forall a | 0 <= a < 5 :: Axis(p, a) <= Axis(q, a)
  }

  /**
    `np.min(positions, axis=0)`: the component-wise minimum of a non-empty
    sequence of positions, a lower bound on every position (reached on every
    axis, see MinAllAttained).
   */
  function MinAll(ps: seq<TilePosition>): (r: TilePosition)
    requires |ps| > 0
    ensures forall i | 0 <= i < |ps| :: LessEq(r, ps[i])
  {
    if |ps| == 1 then ps[0] else MinPos(MinAll(ps[..|ps| - 1]), ps[|ps| - 1])
  }

  /** Every component of MinAll(ps) is the component of some position in ps. */
  lemma {:induction false} MinAllAttained(ps: seq<TilePosition>, a: nat) returns (i: nat)
    requires |ps| > 0 && a < 5
    ensures i < |ps| && Axis(ps[i], a) == Axis(MinAll(ps), a)
  {
    if |ps| == 1 {
      i := 0;
    } else if Axis(ps[|ps| - 1], a) < Axis(MinAll(ps[..|ps| - 1]), a) {
      i := |ps| - 1;
    } else {
      i := MinAllAttained(ps[..|ps| - 1], a);
    }
  }

  /**
    `np.max(positions, axis=0)`: the component-wise maximum of a non-empty
    sequence of positions, an upper bound on every position (reached on
    every axis, see MaxAllAttained).
   */
  function MaxAll(ps: seq<TilePosition>): (r: TilePosition)
    requires |ps| > 0
    ensures forall i | 0 <= i < |ps| :: LessEq(ps[i], r)
  {
    if |ps| == 1 then ps[0] else MaxPos(MaxAll(ps[..|ps| - 1]), ps[|ps| - 1])
  }

  /** Every component of MaxAll(ps) is the component of some position in ps. */
  lemma {:induction false} MaxAllAttained(ps: seq<TilePosition>, a: nat) returns (i: nat)
    requires |ps| > 0 && a < 5
    ensures i < |ps| && Axis(ps[i], a) == Axis(MaxAll(ps), a)
  {
    if |ps| == 1 {
      i := 0;
    } else if Axis(ps[|ps| - 1], a) > Axis(MaxAll(ps[..|ps| - 1]), a) {
      i := |ps| - 1;
    } else {
      i := MaxAllAttained(ps[..|ps| - 1], a);
    }
  }

  /** The positions of a tile list, in order. */
  function Positions(ts: seq<Tile>): (ps: seq<TilePosition>)
    ensures |ps| == |ts| && forall i | 0 <= i < |ts| :: ps[i] == ts[i].position
  {
    seq(|ts|, i requires 0 <= i < |ts| => ts[i].position)
  }
}
