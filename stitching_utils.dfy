/**
  Origin shift of tile positions and per-chunk assembly of a mosaic: each
  tile is translated into the chunk's frame by an integer shift (the
  order-0 warp with fill 0), together with a mask of the pixels it covers,
  and the warped tiles are fused by sum or by mask-weighted mean.

  Pixel data come from `load`, the tile's own loader, which reads files and
  is a parameter here.  Pixels are non-negative integers (unsigned image
  types); tile data are taken to be in the range of the chunk's type.
 */
module StitchingUtils {
  import opened Outcomes
  import opened Tiles

  // ---------------------------------------------------------------------
  // shift_to_origin
  // ---------------------------------------------------------------------

  /** The tiles with every position reduced by `origin`; nothing else changes. */
  function ShiftAll(ts: seq<Tile>, origin: TilePosition): (r: seq<Tile>)
    ensures |r| == |ts|
    ensures forall i | 0 <= i < |ts| :: r[i] == ts[i].(position := Sub(ts[i].position, origin))
  {
    seq(|ts|, i requires 0 <= i < |ts| => ts[i].(position := Sub(ts[i].position, origin)))
  }

  /**
    The tiles after `shift_to_origin`: every position minus the
    component-wise minimum of all positions.  Offsets between tiles and all
    fields other than the position are kept.
   */
  function Shifted(ts: seq<Tile>): (r: seq<Tile>)
    requires |ts| > 0
    ensures |r| == |ts|
    ensures forall i | 0 <= i < |ts| :: r[i].(position := ts[i].position) == ts[i]
    ensures forall i, j | 0 <= i < |ts| && 0 <= j < |ts| ::
      Sub(r[i].position, r[j].position) == Sub(ts[i].position, ts[j].position)
  {
    ShiftAll(ts, MinAll(Positions(ts)))
  }

  /**
    The invariant of an aligned tile set: no component is negative, and on
    every axis some tile sits at 0.
   */
  ghost predicate AtOrigin(ts: seq<Tile>) {
    && (forall i, a | 0 <= i < |ts| && 0 <= a < 5 :: Axis(ts[i].position, a) >= 0)
    && (forall a | 0 <= a < 5 :: ReachesZero(ts, a))
  }

  /** Some tile has component `a` equal to 0. */
  ghost predicate ReachesZero(ts: seq<Tile>, a: nat)
    requires a < 5
  {
    exists i | 0 <= i < |ts| :: Axis(ts[i].position, a) == 0
  }

  /** After the shift every component is non-negative and each axis reaches 0. */
  lemma ShiftedAtOrigin(ts: seq<Tile>)
    requires |ts| > 0
    ensures AtOrigin(Shifted(ts))
  {
    var m := MinAll(Positions(ts));
    var r := Shifted(ts);
    forall i, a | 0 <= i < |ts| && 0 <= a < 5 ensures Axis(r[i].position, a) >= 0 {
      assert LessEq(m, Positions(ts)[i]);
    }
    forall a | 0 <= a < 5 ensures ReachesZero(r, a) {
      var i := MinAllAttained(Positions(ts), a);
      assert Axis(r[i].position, a) == 0;
    }
  }

  /** A tile set already at the origin has the zero vector as its minimum. */
  lemma AtOriginMinimum(ts: seq<Tile>)
    requires |ts| > 0 && AtOrigin(ts)
    ensures MinAll(Positions(ts)) == TilePosition(0, 0, 0, 0, 0)
  {
    var m := MinAll(Positions(ts));
    forall a | 0 <= a < 5 ensures Axis(m, a) == 0 {
      var i := MinAllAttained(Positions(ts), a);
      assert ReachesZero(ts, a);
      var j :| 0 <= j < |ts| && Axis(ts[j].position, a) == 0;
      assert LessEq(m, Positions(ts)[j]);
    }
    assert Axis(m, 0) == 0 && Axis(m, 1) == 0 && Axis(m, 2) == 0 && Axis(m, 3) == 0 && Axis(m, 4) == 0;
  }

  /** `shift_to_origin` is idempotent. */
  lemma ShiftIdempotent(ts: seq<Tile>)
    requires |ts| > 0
    ensures Shifted(Shifted(ts)) == Shifted(ts)
  {
    ShiftedAtOrigin(ts);
    AtOriginMinimum(Shifted(ts));
  }

  /**
    `shift_to_origin`.  The source takes a shallow copy of the list and
    reassigns the `position` of each tile object, so the caller's tiles are
    shifted too: here the caller's list is the array `tiles`, updated in
    place, and the returned sequence is the copy.  The minimum over an empty
    list raises before anything changes.
   */
  method ShiftToOrigin(tiles: array<Tile>) returns (r: Result<seq<Tile>>)
    modifies tiles
    ensures tiles.Length == 0 ==> r == Err(EmptyReduction) && tiles[..] == old(tiles[..])
    ensures tiles.Length > 0 ==> tiles[..] == Shifted(old(tiles[..])) && r == Ok(tiles[..])
  {
    if tiles.Length == 0 {
      return Err(EmptyReduction);
    }
    var minTileOrigin := MinAll(Positions(tiles[..]));
    for i := 0 to tiles.Length
      invariant forall k | 0 <= k < i ::
        tiles[k] == old(tiles[k]).(position := Sub(old(tiles[k]).position, minTileOrigin))
      invariant forall k | i <= k < tiles.Length :: tiles[k] == old(tiles[k])
    {
      tiles[i] := tiles[i].(position := Sub(tiles[i].position, minTileOrigin));
    }
    assert tiles[..] == Shifted(old(tiles[..]));
    r := Ok(tiles[..]);
  }

  // ---------------------------------------------------------------------
  // translate_tiles_2d: integer warp and mask
  // ---------------------------------------------------------------------

  /** A 2-D image, row by row. */
  type Image = seq<seq<nat>>

  /** A 2-D boolean mask, row by row. */
  type Mask = seq<seq<bool>>

  predicate InBounds(img: Image, r: int, c: int) {
    0 <= r < |img| && 0 <= c < |img[r]|
  }

  function PixelOrZero(img: Image, r: int, c: int): nat {
    if InBounds(img, r, c) then img[r][c] else 0
  }

  /** Pixel (r, c) of the image warped by (dy, dx). */
  function WarpedPixel(img: Image, dy: int, dx: int, r: int, c: int): nat {
    PixelOrZero(img, r + dy, c + dx)
  }

  function WarpedMaskPixel(img: Image, dy: int, dx: int, r: int, c: int): bool {
    InBounds(img, r + dy, c + dx)
  }

  /**
    `warp(img, EuclideanTransform(translation=(dx, dy)), order=0, cval=0,
    output_shape=(h, w))` for an integer translation: output pixel (r, c)
    reads input pixel (r + dy, c + dx), or 0 outside the input.
   */
  function Warp(img: Image, dy: int, dx: int, h: nat, w: nat): (out: Image)
    ensures |out| == h && forall r | 0 <= r < h :: |out[r]| == w
    ensures forall r, c | 0 <= r < h && 0 <= c < w :: out[r][c] == PixelOrZero(img, r + dy, c + dx)
  {
    seq(h, r => seq(w, c => WarpedPixel(img, dy, dx, r, c)))
  }

  /** The same warp applied to an all-true mask of the image's shape, with fill false. */
  function WarpMask(img: Image, dy: int, dx: int, h: nat, w: nat): (out: Mask)
    ensures |out| == h && forall r | 0 <= r < h :: |out[r]| == w
    ensures forall r, c | 0 <= r < h && 0 <= c < w :: out[r][c] == InBounds(img, r + dy, c + dx)
  {
    seq(h, r => seq(w, c => WarpedMaskPixel(img, dy, dx, r, c)))
  }

  /** A translation that maps an image onto a window of its own shape is the identity, with a full mask. */
  lemma WarpIdentity(img: Image, h: nat, w: nat)
    requires |img| == h && forall r | 0 <= r < h :: |img[r]| == w
    ensures Warp(img, 0, 0, h, w) == img
    ensures forall r, c | 0 <= r < h && 0 <= c < w :: WarpMask(img, 0, 0, h, w)[r][c]
  {
    var out := Warp(img, 0, 0, h, w);
    forall r | 0 <= r < h ensures out[r] == img[r] {
      assert forall c | 0 <= c < w :: out[r][c] == img[r][c];
    }
  }

  /**
    Warping by a translation and then by its opposite into the original
    frame gives back every pixel the intermediate window covered, and 0
    elsewhere: the warp neither moves nor alters pixel values.
   */
  lemma WarpRoundTrip(img: Image, dy: int, dx: int, h: nat, w: nat, r: nat, c: nat)
    requires InBounds(img, r, c)
    ensures PixelOrZero(Warp(img, dy, dx, h, w), r - dy, c - dx)
         == if 0 <= r - dy < h && 0 <= c - dx < w then img[r][c] else 0
  {
    var out := Warp(img, dy, dx, h, w);
    if 0 <= r - dy < h && 0 <= c - dx < w {
      assert out[r - dy][c - dx] == PixelOrZero(img, r - dy + dy, c - dx + dx);
    }
  }

  /** The tile's (y, x) offset that translates it into a chunk whose origin is (originY, originX). */
  function OffsetY(t: Tile, originY: int): int { originY - t.position.y }
  function OffsetX(t: Tile, originX: int): int { originX - t.position.x }

  /**
    The stack of warped tiles `translate_tiles_2d` produces, of shape
    (len(tiles), h, w): pixel (r, c) of tile i is the tile's pixel
    (r + originY - y, c + originX - x) when that lies inside the tile, else 0.
   */
  function WarpedTiles(tiles: seq<Tile>, load: Tile -> Image, originY: int, originX: int, h: nat, w: nat): (s: seq<Image>)
    ensures IsStack(s, |tiles|, h, w)
    ensures forall i, r, c | 0 <= i < |tiles| && 0 <= r < h && 0 <= c < w ::
      s[i][r][c] == PixelOrZero(load(tiles[i]), r + OffsetY(tiles[i], originY), c + OffsetX(tiles[i], originX))
  {
    seq(|tiles|, i requires 0 <= i < |tiles| =>
      Warp(load(tiles[i]), OffsetY(tiles[i], originY), OffsetX(tiles[i], originX), h, w))
  }

  /** The masks `translate_tiles_2d` produces: true exactly where the tile has data. */
  function WarpedMasks(tiles: seq<Tile>, load: Tile -> Image, originY: int, originX: int, h: nat, w: nat): (s: seq<Mask>)
    ensures IsMaskStack(s, |tiles|, h, w)
    ensures forall i, r, c | 0 <= i < |tiles| && 0 <= r < h && 0 <= c < w ::
      s[i][r][c] == InBounds(load(tiles[i]), r + OffsetY(tiles[i], originY), c + OffsetX(tiles[i], originX))
  {
    seq(|tiles|, i requires 0 <= i < |tiles| =>
      WarpMask(load(tiles[i]), OffsetY(tiles[i], originY), OffsetX(tiles[i], originX), h, w))
  }

  /** A pixel of a warped tile is non-zero only where its mask is true. */
  lemma WarpedOutsideMaskIsZero(tiles: seq<Tile>, load: Tile -> Image, originY: int, originX: int,
                                h: nat, w: nat, i: nat, r: nat, c: nat)
    requires i < |tiles| && r < h && c < w
    requires !WarpedMasks(tiles, load, originY, originX, h, w)[i][r][c]
    ensures WarpedTiles(tiles, load, originY, originX, h, w)[i][r][c] == 0
  {
  }

  /**
    `translate_tiles_2d`: fills the preallocated (len(tiles), h, w) arrays
    slice by slice, one tile per iteration; the chunk origin is passed in
    explicitly where the source reads it from dask's block_info.
   */
  method TranslateTiles2d(originY: int, originX: int, h: nat, w: nat, tiles: seq<Tile>, load: Tile -> Image)
    returns (warpedTiles: array3<nat>, warpedMasks: array3<bool>)
    ensures fresh(warpedTiles) && fresh(warpedMasks)
    ensures warpedTiles.Length0 == |tiles| && warpedTiles.Length1 == h && warpedTiles.Length2 == w
    ensures warpedMasks.Length0 == |tiles| && warpedMasks.Length1 == h && warpedMasks.Length2 == w
    ensures forall i, r, c | 0 <= i < |tiles| && 0 <= r < h && 0 <= c < w ::
      && warpedTiles[i, r, c] == WarpedTiles(tiles, load, originY, originX, h, w)[i][r][c]
      && warpedMasks[i, r, c] == WarpedMasks(tiles, load, originY, originX, h, w)[i][r][c]
  {
    warpedTiles := new nat[|tiles|, h, w];
    warpedMasks := new bool[|tiles|, h, w];
    for i := 0 to |tiles|
      invariant forall k, r, c | 0 <= k < i && 0 <= r < h && 0 <= c < w ::
        && warpedTiles[k, r, c] == PixelOrZero(load(tiles[k]), r + OffsetY(tiles[k], originY), c + OffsetX(tiles[k], originX))
        && warpedMasks[k, r, c] == InBounds(load(tiles[k]), r + OffsetY(tiles[k], originY), c + OffsetX(tiles[k], originX))
    {
      var tileData := load(tiles[i]);
      var dy, dx := OffsetY(tiles[i], originY), OffsetX(tiles[i], originX);
      for r := 0 to h
        invariant forall k, rr, c | 0 <= k < i && 0 <= rr < h && 0 <= c < w ::
          && warpedTiles[k, rr, c] == PixelOrZero(load(tiles[k]), rr + OffsetY(tiles[k], originY), c + OffsetX(tiles[k], originX))
          && warpedMasks[k, rr, c] == InBounds(load(tiles[k]), rr + OffsetY(tiles[k], originY), c + OffsetX(tiles[k], originX))
        invariant forall rr, c | 0 <= rr < r && 0 <= c < w ::
          warpedTiles[i, rr, c] == PixelOrZero(tileData, rr + dy, c + dx) && warpedMasks[i, rr, c] == InBounds(tileData, rr + dy, c + dx)
      {
        for c := 0 to w
          invariant forall k, rr, cc | 0 <= k < i && 0 <= rr < h && 0 <= cc < w ::
            && warpedTiles[k, rr, cc] == PixelOrZero(load(tiles[k]), rr + OffsetY(tiles[k], originY), cc + OffsetX(tiles[k], originX))
            && warpedMasks[k, rr, cc] == InBounds(load(tiles[k]), rr + OffsetY(tiles[k], originY), cc + OffsetX(tiles[k], originX))
          invariant forall rr, cc | 0 <= rr < r && 0 <= cc < w ::
            warpedTiles[i, rr, cc] == PixelOrZero(tileData, rr + dy, cc + dx) && warpedMasks[i, rr, cc] == InBounds(tileData, rr + dy, cc + dx)
          invariant forall cc | 0 <= cc < c ::
            warpedTiles[i, r, cc] == PixelOrZero(tileData, r + dy, cc + dx) && warpedMasks[i, r, cc] == InBounds(tileData, r + dy, cc + dx)
        {
          warpedTiles[i, r, c] := PixelOrZero(tileData, r + dy, c + dx);
          warpedMasks[i, r, c] := InBounds(tileData, r + dy, c + dx);
        }
      }
    }
  }

  // ---------------------------------------------------------------------
  // fuse_sum and fuse_mean
  // ---------------------------------------------------------------------

  /** A stack of n images of shape (h, w). */
  ghost predicate IsStack(s: seq<Image>, n: nat, h: nat, w: nat) {
    |s| == n && forall i | 0 <= i < n :: |s[i]| == h && forall r | 0 <= r < h :: |s[i][r]| == w
  }

  ghost predicate IsMaskStack(s: seq<Mask>, n: nat, h: nat, w: nat) {
    |s| == n && forall i | 0 <= i < n :: |s[i]| == h && forall r | 0 <= r < h :: |s[i][r]| == w
  }

  /** Every image of the stack has pixel (r, c). */
  predicate HasPixel(s: seq<Image>, r: nat, c: nat) {
    forall i | 0 <= i < |s| :: r < |s[i]| && c < |s[i][r]|
  }

  predicate HasMaskPixel(m: seq<Mask>, r: nat, c: nat) {
    forall i | 0 <= i < |m| :: r < |m[i]| && c < |m[i][r]|
  }

  function Pow2(bits: nat): (p: nat)
    ensures p > 0
  {
    if bits == 0 then 1 else 2 * Pow2(bits - 1)
  }

  /** `np.sum(stack, axis=0)` at one pixel. */
  function PixelSum(s: seq<Image>, r: nat, c: nat): nat
    requires HasPixel(s, r, c)
  {
    if s == [] then 0 else PixelSum(s[..|s| - 1], r, c) + s[|s| - 1][r][c]
  }

  /** The number of masks that are true at one pixel (`weights.sum(axis=0)`). */
  function MaskCount(m: seq<Mask>, r: nat, c: nat): (n: nat)
    requires HasMaskPixel(m, r, c)
    ensures n <= |m|
  {
    if m == [] then 0 else MaskCount(m[..|m| - 1], r, c) + (if m[|m| - 1][r][c] then 1 else 0)
  }

  /** The sum at one pixel of the values whose mask is true (`np.sum(stack * masks, axis=0)`). */
  function MaskedSum(s: seq<Image>, m: seq<Mask>, r: nat, c: nat): nat
    requires |s| == |m| && HasPixel(s, r, c) && HasMaskPixel(m, r, c)
  {
    if s == [] then 0
    else MaskedSum(s[..|s| - 1], m[..|m| - 1], r, c) + (if m[|m| - 1][r][c] then s[|s| - 1][r][c] else 0)
  }

  /**
    `fuse_sum`: the per-pixel sum of the warped tiles, masks ignored, cast
    back to the unsigned `bits`-bit pixel type (the sum is accumulated
    without overflow, then wraps modulo 2^bits on the cast).
   */
  function FuseSum(s: seq<Image>, masks: seq<Mask>, h: nat, w: nat, bits: nat): (out: Image)
    requires IsStack(s, |s|, h, w)
    ensures |out| == h && forall r | 0 <= r < h :: |out[r]| == w
  {
    seq(h, r requires 0 <= r < h => seq(w, c requires 0 <= c < w => SumPixel(s, r, c, bits)))
  }

  /** One pixel of `fuse_sum`. */
  function SumPixel(s: seq<Image>, r: nat, c: nat, bits: nat): nat
    requires HasPixel(s, r, c)
  {
    PixelSum(s, r, c) % Pow2(bits)
  }

  /** Some mask is true at pixel (r, c). */
  ghost predicate PixelCovered(masks: seq<Mask>, r: nat, c: nat) {
    exists i | 0 <= i < |masks| :: r < |masks[i]| && c < |masks[i][r]| && masks[i][r][c]
  }

  /** Every pixel of the (h, w) window is covered by at least one mask. */
  ghost predicate Covered(masks: seq<Mask>, h: nat, w: nat) {
    forall r, c | 0 <= r < h && 0 <= c < w :: PixelCovered(masks, r, c)
  }

  /**
    One pixel of `fuse_mean`: the mean of the covered values, truncated.
    Where no mask is true the source divides 0 by 0 and casts the NaN to
    the integer type; the value that cast gives is not fixed by the source,
    so it is the parameter `uncovered`.
   */
  function MeanPixel(s: seq<Image>, masks: seq<Mask>, r: nat, c: nat, uncovered: nat): nat
    requires |s| == |masks| && HasPixel(s, r, c) && HasMaskPixel(masks, r, c)
  {
    var n := MaskCount(masks, r, c);
    if n == 0 then uncovered else MaskedSum(s, masks, r, c) / n
  }

  /**
    `fuse_mean`: each pixel is the mean of the values whose mask is true,
    truncated by the cast back to the integer type; a pixel no mask covers
    gets `uncovered`.
   */
  function FuseMean(s: seq<Image>, masks: seq<Mask>, h: nat, w: nat, uncovered: nat): (out: Image)
    requires IsStack(s, |s|, h, w) && IsMaskStack(masks, |s|, h, w)
    ensures |out| == h && forall r | 0 <= r < h :: |out[r]| == w
  {
    seq(h, r requires 0 <= r < h => seq(w, c requires 0 <= c < w => MeanPixel(s, masks, r, c, uncovered)))
  }

  lemma {:induction false} CoveredCountPositive(m: seq<Mask>, r: nat, c: nat)
    requires HasMaskPixel(m, r, c)
    requires PixelCovered(m, r, c)
    ensures MaskCount(m, r, c) > 0
  {
    var i :| 0 <= i < |m| && r < |m[i]| && c < |m[i][r]| && m[i][r][c];
    if i < |m| - 1 {
      assert m[..|m| - 1][i] == m[i];
      CoveredCountPositive(m[..|m| - 1], r, c);
    }
  }

  /**
    Where exactly one mask is true, the masked sum is that tile's value and
    the count is one.
   */
  lemma {:induction false} SingleCoverageSums(s: seq<Image>, m: seq<Mask>, r: nat, c: nat, k: nat)
    requires |s| == |m| && HasPixel(s, r, c) && HasMaskPixel(m, r, c)
    requires k < |m| && m[k][r][c]
    requires forall i | 0 <= i < |m| && i != k :: !m[i][r][c]
    ensures MaskCount(m, r, c) == 1 && MaskedSum(s, m, r, c) == s[k][r][c]
  {
    var n := |m| - 1;
    if k < n {
      SingleCoverageSums(s[..n], m[..n], r, c, k);
    } else {
      NoCoverageSums(s[..n], m[..n], r, c);
    }
  }

  lemma {:induction false} NoCoverageSums(s: seq<Image>, m: seq<Mask>, r: nat, c: nat)
    requires |s| == |m| && HasPixel(s, r, c) && HasMaskPixel(m, r, c)
    requires forall i | 0 <= i < |m| :: !m[i][r][c]
    ensures MaskCount(m, r, c) == 0 && MaskedSum(s, m, r, c) == 0
  {
    if m != [] {
      NoCoverageSums(s[..|s| - 1], m[..|m| - 1], r, c);
    }
  }

  /** Mean fusion where exactly one tile covers a pixel reproduces that tile's value. */
  lemma FuseMeanSingleCoverage(s: seq<Image>, masks: seq<Mask>, h: nat, w: nat, uncovered: nat, r: nat, c: nat, k: nat)
    requires IsStack(s, |s|, h, w) && IsMaskStack(masks, |s|, h, w)
    requires r < h && c < w && k < |s| && masks[k][r][c]
    requires forall i | 0 <= i < |s| && i != k :: !masks[i][r][c]
    ensures FuseMean(s, masks, h, w, uncovered)[r][c] == s[k][r][c]
  {
    SingleCoverageSums(s, masks, r, c, k);
  }

  /** The masked sum lies between count * lo and count * hi when every covered value does. */
  lemma {:induction false} MaskedSumBounds(s: seq<Image>, m: seq<Mask>, r: nat, c: nat, lo: nat, hi: nat)
    requires |s| == |m| && HasPixel(s, r, c) && HasMaskPixel(m, r, c)
    requires forall i | 0 <= i < |s| && m[i][r][c] :: lo <= s[i][r][c] <= hi
    ensures lo * MaskCount(m, r, c) <= MaskedSum(s, m, r, c) <= hi * MaskCount(m, r, c)
  {
    if s != [] {
      var n := |s| - 1;
      var s', m' := s[..n], m[..n];
      forall i | 0 <= i < n && m'[i][r][c] ensures lo <= s'[i][r][c] <= hi {
        assert m'[i] == m[i] && s'[i] == s[i];
      }
      MaskedSumBounds(s', m', r, c, lo, hi);
      var k, sum := MaskCount(m', r, c), MaskedSum(s', m', r, c);
      if m[n][r][c] {
        assert MaskCount(m, r, c) == k + 1 && MaskedSum(s, m, r, c) == sum + s[n][r][c];
        BoundsStep(lo, hi, k, sum, s[n][r][c]);
      } else {
        assert MaskCount(m, r, c) == k && MaskedSum(s, m, r, c) == sum;
      }
    }
  }

  lemma BoundsStep(lo: nat, hi: nat, k: nat, sum: nat, v: nat)
    requires lo * k <= sum <= hi * k && lo <= v <= hi
    ensures lo * (k + 1) <= sum + v <= hi * (k + 1)
  {
    assert lo * (k + 1) == lo * k + lo && hi * (k + 1) == hi * k + hi;
  }

  /**
    Mean fusion stays within the range of the covered values: if every tile
    whose mask is true at (r, c) has a value in [lo, hi] there, so has the
    fused pixel.
   */
  lemma FuseMeanBounds(s: seq<Image>, masks: seq<Mask>, h: nat, w: nat, uncovered: nat, r: nat, c: nat, lo: nat, hi: nat)
    requires IsStack(s, |s|, h, w) && IsMaskStack(masks, |s|, h, w)
    requires r < h && c < w && PixelCovered(masks, r, c)
    requires forall i | 0 <= i < |s| && masks[i][r][c] :: lo <= s[i][r][c] <= hi
    ensures lo <= FuseMean(s, masks, h, w, uncovered)[r][c] <= hi
  {
    CoveredCountPositive(masks, r, c);
    MaskedSumBounds(s, masks, r, c, lo, hi);
    var n := MaskCount(masks, r, c);
    var sum := MaskedSum(s, masks, r, c);
    DivBounds(sum, n, lo, hi);
  }

  /**
    A pixel no mask covers is exactly where the source's division has no
    value: the mask count is 0 there, and the pixel is `uncovered`.
   */
  lemma FuseMeanUncovered(s: seq<Image>, masks: seq<Mask>, h: nat, w: nat, uncovered: nat, r: nat, c: nat)
    requires IsStack(s, |s|, h, w) && IsMaskStack(masks, |s|, h, w) && r < h && c < w
    ensures MaskCount(masks, r, c) == 0 <==> !PixelCovered(masks, r, c)
    ensures !PixelCovered(masks, r, c) ==> FuseMean(s, masks, h, w, uncovered)[r][c] == uncovered
  {
    if PixelCovered(masks, r, c) {
      CoveredCountPositive(masks, r, c);
    } else {
      NoCoverageSums(s, masks, r, c);
    }
  }

  /**
    Ignoring the masks loses nothing when every tile is 0 wherever its mask
    is false: the plain sum is the masked sum.
   */
  lemma {:induction false} SumIgnoresMaskedOut(s: seq<Image>, m: seq<Mask>, r: nat, c: nat)
    requires |s| == |m| && HasPixel(s, r, c) && HasMaskPixel(m, r, c)
    requires forall i | 0 <= i < |s| && !m[i][r][c] :: s[i][r][c] == 0
    ensures PixelSum(s, r, c) == MaskedSum(s, m, r, c)
  {
    if s != [] {
      var n := |s| - 1;
      assert forall i | 0 <= i < n :: s[..n][i] == s[i] && m[..n][i] == m[i];
      SumIgnoresMaskedOut(s[..n], m[..n], r, c);
    }
  }

  /**
    `fuse_sum` of stacks whose tiles are 0 outside their masks: each pixel
    is the sum of the tiles that cover it, cast to the pixel type, so it is
    that sum exactly when the sum fits.
   */
  lemma FuseSumMasked(s: seq<Image>, m: seq<Mask>, h: nat, w: nat, bits: nat, r: nat, c: nat)
    requires IsStack(s, |s|, h, w) && IsMaskStack(m, |s|, h, w) && r < h && c < w
    requires forall i | 0 <= i < |s| && !m[i][r][c] :: s[i][r][c] == 0
    ensures FuseSum(s, m, h, w, bits)[r][c] == MaskedSum(s, m, r, c) % Pow2(bits)
    ensures FuseSum(s, m, h, w, bits)[r][c] < Pow2(bits)
    ensures MaskedSum(s, m, r, c) < Pow2(bits) ==> FuseSum(s, m, h, w, bits)[r][c] == MaskedSum(s, m, r, c)
  {
    assert HasPixel(s, r, c) && HasMaskPixel(m, r, c);
    SumIgnoresMaskedOut(s, m, r, c);
    var sum := MaskedSum(s, m, r, c);
    assert FuseSum(s, m, h, w, bits)[r][c] == sum % Pow2(bits);
    if sum < Pow2(bits) {
      ModSmall(sum, Pow2(bits));
    }
  }

  /** The stacks `translate_tiles_2d` produces are 0 outside their masks, so `fuse_sum` adds only covering tiles. */
  lemma FuseSumOfWarped(tiles: seq<Tile>, load: Tile -> Image, originY: int, originX: int,
                        h: nat, w: nat, bits: nat, r: nat, c: nat)
    requires r < h && c < w
    ensures var s := WarpedTiles(tiles, load, originY, originX, h, w);
      var m := WarpedMasks(tiles, load, originY, originX, h, w);
      FuseSum(s, m, h, w, bits)[r][c] == MaskedSum(s, m, r, c) % Pow2(bits)
  {
    var s := WarpedTiles(tiles, load, originY, originX, h, w);
    var m := WarpedMasks(tiles, load, originY, originX, h, w);
    forall i | 0 <= i < |s| && !m[i][r][c] ensures s[i][r][c] == 0 {
      WarpedOutsideMaskIsZero(tiles, load, originY, originX, h, w, i, r, c);
    }
    FuseSumMasked(s, m, h, w, bits, r, c);
  }

  lemma DivBounds(sum: nat, n: nat, lo: nat, hi: nat)
    requires n > 0 && lo * n <= sum <= hi * n
    ensures lo <= sum / n <= hi
  {
    var q := sum / n;
    assert q * n <= sum < (q + 1) * n;
    if q < lo {
      MulMonotone(q + 1, lo, n);
    }
    if q > hi {
      MulMonotone(hi + 1, q, n);
    }
  }

  lemma MulMonotone(a: nat, b: nat, n: nat)
    requires a <= b
    ensures a * n <= b * n
  {
  }

  /** At one pixel of a one-tile stack covered by its mask, both fusions give the tile's value. */
  lemma OneTilePixel(s: seq<Image>, masks: seq<Mask>, r: nat, c: nat, bits: nat, uncovered: nat)
    requires |s| == 1 && |masks| == 1 && HasPixel(s, r, c) && HasMaskPixel(masks, r, c)
    requires masks[0][r][c] && s[0][r][c] < Pow2(bits)
    ensures PixelCovered(masks, r, c)
    ensures SumPixel(s, r, c, bits) == s[0][r][c]
    ensures MeanPixel(s, masks, r, c, uncovered) == s[0][r][c]
  {
    var v := s[0][r][c];
    assert PixelSum(s, r, c) == PixelSum(s[..0], r, c) + v;
    assert s[..0] == [];
    ModSmall(v, Pow2(bits));
    SingleCoverageSums(s, masks, r, c, 0);
  }

  lemma ModSmall(v: nat, p: nat)
    requires v < p
    ensures v % p == v
  {
  }

  /**
    For a stack of one tile in range of the pixel type that covers the whole
    window, sum fusion and mean fusion agree and both reproduce the tile.
   */
  lemma OneTileFusionsAgree(s: seq<Image>, masks: seq<Mask>, h: nat, w: nat, bits: nat, uncovered: nat)
    requires IsStack(s, 1, h, w) && IsMaskStack(masks, 1, h, w)
    requires forall r, c | 0 <= r < h && 0 <= c < w :: masks[0][r][c] && s[0][r][c] < Pow2(bits)
    ensures Covered(masks, h, w)
    ensures FuseSum(s, masks, h, w, bits) == FuseMean(s, masks, h, w, uncovered) == s[0]
  {
    forall r, c | 0 <= r < h && 0 <= c < w
      ensures PixelCovered(masks, r, c)
      ensures SumPixel(s, r, c, bits) == s[0][r][c] && MeanPixel(s, masks, r, c, uncovered) == s[0][r][c]
    {
      OneTilePixel(s, masks, r, c, bits, uncovered);
    }
    var sum := FuseSum(s, masks, h, w, bits);
    var mean := FuseMean(s, masks, h, w, uncovered);
    forall r | 0 <= r < h ensures sum[r] == s[0][r] && mean[r] == s[0][r] {
      assert forall c | 0 <= c < w :: sum[r][c] == s[0][r][c] && mean[r][c] == s[0][r][c];
    }
  }

  // ---------------------------------------------------------------------
  // assemble_chunk
  // ---------------------------------------------------------------------

  /**
    What the scheduler knows about one output chunk (dask's block_info):
    its address in the chunk grid, its 5-D shape, and the (y, x) start of
    the region of the output array it covers.
   */
  datatype ChunkContext = ChunkContext(location: seq<int>, shape: seq<nat>, originY: int, originX: int)

  /**
    The fusion function passed to `assemble_chunk`: mean fusion, with the
    value its NaN-to-integer cast gives at uncovered pixels, or sum fusion.
   */
  datatype FusePolicy = MeanFusion(uncovered: nat) | SumFusion

  /** A 5-D array (time, channel, z, y, x). */
  type Block = seq<seq<seq<Image>>>

  ghost predicate BlockShape(b: Block, shape: seq<nat>)
    requires |shape| == 5
  {
    && |b| == shape[0]
    && (forall t | 0 <= t < |b| :: |b[t]| == shape[1])
    && (forall t, ch | 0 <= t < |b| && 0 <= ch < |b[t]| :: |b[t][ch]| == shape[2])
    && (forall t, ch, z | 0 <= t < |b| && 0 <= ch < |b[t]| && 0 <= z < |b[t][ch]| ::
          |b[t][ch][z]| == shape[3])
    && (forall t, ch, z, y | 0 <= t < |b| && 0 <= ch < |b[t]| && 0 <= z < |b[t][ch]| && 0 <= y < |b[t][ch][z]| ::
          |b[t][ch][z][y]| == shape[4])
  }

  /** `np.zeros(shape)` for a 5-D shape. */
  function Zeros(shape: seq<nat>): (b: Block)
    requires |shape| == 5
    ensures BlockShape(b, shape)
    ensures forall t, ch, z, y, x | 0 <= t < shape[0] && 0 <= ch < shape[1] && 0 <= z < shape[2]
      && 0 <= y < shape[3] && 0 <= x < shape[4] :: b[t][ch][z][y][x] == 0
  {
    seq(shape[0], _ => seq(shape[1], _ => seq(shape[2], _ => seq(shape[3], _ => seq(shape[4], _ => 0)))))
  }

  /** Every pixel of the chunk is covered by some tile. */
  ghost predicate ChunkCovered(tiles: seq<Tile>, load: Tile -> Image, ctx: ChunkContext)
    requires |ctx.shape| == 5
  {
    Covered(WarpedMasks(tiles, load, ctx.originY, ctx.originX, ctx.shape[3], ctx.shape[4]), ctx.shape[3], ctx.shape[4])
  }

  /** The fused (y, x) image of a non-empty chunk. */
  function FusedChunk(tiles: seq<Tile>, load: Tile -> Image, ctx: ChunkContext, policy: FusePolicy, bits: nat): (img: Image)
    requires |ctx.shape| == 5
    ensures |img| == ctx.shape[3] && forall r | 0 <= r < ctx.shape[3] :: |img[r]| == ctx.shape[4]
  {
    var h, w := ctx.shape[3], ctx.shape[4];
    var warped := WarpedTiles(tiles, load, ctx.originY, ctx.originX, h, w);
    var masks := WarpedMasks(tiles, load, ctx.originY, ctx.originX, h, w);
    match policy
    case SumFusion => FuseSum(warped, masks, h, w, bits)
    case MeanFusion(uncovered) => FuseMean(warped, masks, h, w, uncovered)
  }

  /**
    `assemble_chunk`: looks the chunk's tiles up in `tileMap`; with no tiles
    the chunk is zeros of exactly the chunk's shape, otherwise the tiles are
    warped to the chunk's (y, x) shape and fused, and the image gets three
    leading singleton axes.
   */
  function AssembleChunk(ctx: ChunkContext, tileMap: map<seq<int>, seq<Tile>>, policy: FusePolicy,
                         bits: nat, load: Tile -> Image): (r: Result<Block>)
    requires |ctx.shape| == 5
    ensures r.Ok? <==> ctx.location in tileMap
    ensures r.Ok? && tileMap[ctx.location] == [] ==> r.value == Zeros(ctx.shape)
    ensures r.Ok? && tileMap[ctx.location] != [] ==>
      BlockShape(r.value, [1, 1, 1, ctx.shape[3], ctx.shape[4]])
    ensures r.Ok? && tileMap[ctx.location] != [] ==>
      r.value == [[[FusedChunk(tileMap[ctx.location], load, ctx, policy, bits)]]]
  {
    if ctx.location !in tileMap then Err(MissingChunk)
    else
      var tiles := tileMap[ctx.location];
      if |tiles| > 0 then Ok([[[FusedChunk(tiles, load, ctx, policy, bits)]]])
      else Ok(Zeros(ctx.shape))
  }

  /**
    A chunk whose only tile sits exactly at the chunk's origin and has the
    chunk's (y, x) shape is that tile's image, under either fusion policy.
   */
  lemma AlignedTileChunk(ctx: ChunkContext, tileMap: map<seq<int>, seq<Tile>>, policy: FusePolicy,
                         bits: nat, load: Tile -> Image, t: Tile)
    requires |ctx.shape| == 5 && ctx.location in tileMap && tileMap[ctx.location] == [t]
    requires t.position.y == ctx.originY && t.position.x == ctx.originX
    requires |load(t)| == ctx.shape[3] && forall r | 0 <= r < ctx.shape[3] :: |load(t)[r]| == ctx.shape[4]
    requires forall r, c | 0 <= r < ctx.shape[3] && 0 <= c < ctx.shape[4] :: load(t)[r][c] < Pow2(bits)
    ensures ChunkCovered([t], load, ctx)
    ensures AssembleChunk(ctx, tileMap, policy, bits, load) == Ok([[[load(t)]]])
  {
    var h, w := ctx.shape[3], ctx.shape[4];
    var warped := WarpedTiles([t], load, ctx.originY, ctx.originX, h, w);
    var masks := WarpedMasks([t], load, ctx.originY, ctx.originX, h, w);
    WarpIdentity(load(t), h, w);
    assert warped[0] == Warp(load(t), 0, 0, h, w);
    assert forall r, c | 0 <= r < h && 0 <= c < w :: masks[0][r][c];
    OneTileFusionsAgree(warped, masks, h, w, bits, if policy.MeanFusion? then policy.uncovered else 0);
  }
}
