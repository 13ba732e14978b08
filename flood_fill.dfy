/**
 * The flood fill of the Flood game, stated on values.
 *
 * A board is an n-by-n grid of colour numbers, g[x][y] being the tile in row x and
 * column y. A fill from the top-left corner (0, 0) repaints the corner's region: the
 * tiles reachable from (0, 0) by steps down, right, up or left through tiles of the
 * corner's colour. This module defines that region through paths, the repainted
 * board, and the facts about them that the game relies on.
 */
module FloodFill {

  type Grid = seq<seq<int>>
  /** A visited mask: m[x][y] says whether tile (x, y) has been visited. */
  type Mask = seq<seq<bool>>
  type Cell = (int, int)

  predicate IsSquare<T>(g: seq<seq<T>>, n: nat) {
    |g| == n && forall x :: 0 <= x < n ==> |g[x]| == n
  }

  predicate InBounds(n: nat, c: Cell) {
    0 <= c.0 < n && 0 <= c.1 < n
  }

  /** d is one of the four neighbours of c: down, right, up or left of it. */
  predicate Adjacent(c: Cell, d: Cell) {
    d == (c.0 + 1, c.1) || d == (c.0, c.1 + 1) || d == (c.0 - 1, c.1) || d == (c.0, c.1 - 1)
  }

  /** p is a walk of neighbouring steps through in-bounds tiles that all have colour `colour`. */
  ghost predicate IsPath(g: Grid, n: nat, colour: int, p: seq<Cell>)
    requires IsSquare(g, n)
  {
    && |p| > 0
    && (forall k :: 0 <= k < |p| ==> InBounds(n, p[k]) && g[p[k].0][p[k].1] == colour)
    && (forall k :: 0 <= k < |p| - 1 ==> Adjacent(p[k], p[k + 1]))
  }

  /** `p` is a path of corner-coloured tiles from the corner to c: a witness that c is in the corner's region. */
  ghost predicate Witness(g: Grid, n: nat, p: seq<Cell>, c: Cell)
    requires IsSquare(g, n)
  {
    n > 0 && IsPath(g, n, g[0][0], p) && p[0] == (0, 0) && p[|p| - 1] == c
  }

  /** c belongs to the 4-connected region of the corner: some path of corner-coloured tiles leads there from (0, 0). */
  ghost predicate InRegion(g: Grid, n: nat, c: Cell)
    requires IsSquare(g, n)
  {
    n > 0 && exists p :: Witness(g, n, p, c)
  }

  /** The board after a fill with `colour`: the corner's region has `colour`, every other tile keeps its value. */
  ghost function Flooded(g: Grid, n: nat, colour: int): (r: Grid)
    requires IsSquare(g, n)
    ensures IsSquare(r, n)
  {
    seq(n, x requires 0 <= x < n =>
      seq(n, y requires 0 <= y < n => if InRegion(g, n, (x, y)) then colour else g[x][y]))
  }

  /** The win condition: every tile has the corner's colour. */
  predicate IsUniform(g: Grid, n: nat)
    requires IsSquare(g, n) && n > 0
  {
    forall x, y :: 0 <= x < n && 0 <= y < n ==> g[x][y] == g[0][0]
  }

  /**
   * Tile (x, y) has no way out of the mask: each in-bounds neighbour that has the
   * corner's colour is marked in m.
   */
  ghost predicate Closed(g: Grid, n: nat, m: Mask, x: int, y: int)
    requires IsSquare(g, n) && IsSquare(m, n) && 0 <= x < n && 0 <= y < n
  {
    && (x + 1 < n && g[x + 1][y] == g[0][0] ==> m[x + 1][y])
    && (y + 1 < n && g[x][y + 1] == g[0][0] ==> m[x][y + 1])
    && (x > 0 && g[x - 1][y] == g[0][0] ==> m[x - 1][y])
    && (y > 0 && g[x][y - 1] == g[0][0] ==> m[x][y - 1])
  }

  /** The tiles a mask leaves unvisited; a fill step removes one of them. */
  ghost function Unvisited(m: Mask, n: nat): (u: set<Cell>)
    requires IsSquare(m, n)
  {
    set x, y | 0 <= x < n && 0 <= y < n && !m[x][y] :: (x, y)
  }

  // ---------------------------------------------------------------- paths

  lemma PathExtend(g: Grid, n: nat, colour: int, p: seq<Cell>, d: Cell)
    requires IsSquare(g, n) && IsPath(g, n, colour, p)
    requires InBounds(n, d) && g[d.0][d.1] == colour && Adjacent(p[|p| - 1], d)
    ensures IsPath(g, n, colour, p + [d])
  {
    var q := p + [d];
    forall k | 0 <= k < |q| - 1 ensures Adjacent(q[k], q[k + 1]) {
      if k < |p| - 1 {
        assert q[k] == p[k] && q[k + 1] == p[k + 1];
      }
    }
  }

  lemma PathPrefix(g: Grid, n: nat, colour: int, p: seq<Cell>, k: nat)
    requires IsSquare(g, n) && IsPath(g, n, colour, p) && 0 < k <= |p|
    ensures IsPath(g, n, colour, p[..k])
  {
    var q := p[..k];
    forall j | 0 <= j < |q| - 1 ensures Adjacent(q[j], q[j + 1]) {
      assert q[j] == p[j] && q[j + 1] == p[j + 1];
    }
  }

  /** A witness path extended by a corner-coloured neighbour of its end is a witness for that neighbour. */
  lemma WitnessExtend(g: Grid, n: nat, p: seq<Cell>, d: Cell)
    requires IsSquare(g, n) && n > 0 && IsPath(g, n, g[0][0], p) && p[0] == (0, 0)
    requires InBounds(n, d) && g[d.0][d.1] == g[0][0] && Adjacent(p[|p| - 1], d)
    ensures Witness(g, n, p + [d], d)
  {
    PathExtend(g, n, g[0][0], p, d);
  }

  /** Every tile of the region has the corner's colour. */
  lemma RegionHasCornerColour(g: Grid, n: nat, c: Cell)
    requires IsSquare(g, n) && InRegion(g, n, c)
    ensures InBounds(n, c) && g[c.0][c.1] == g[0][0]
  {
    var p: seq<Cell> :| Witness(g, n, p, c);
    assert InBounds(n, p[|p| - 1]);
  }

  /** The corner itself is always in its region. */
  lemma CornerInRegion(g: Grid, n: nat)
    requires IsSquare(g, n) && n > 0
    ensures InRegion(g, n, (0, 0))
  {
    assert Witness(g, n, [(0, 0)], (0, 0));
  }

  // ---------------------------------------------------------------- the region is the least closed set

  lemma {:induction false} PathStaysInMask(g: Grid, n: nat, m: Mask, p: seq<Cell>, k: nat)
    requires IsSquare(g, n) && IsSquare(m, n) && n > 0 && m[0][0]
    requires forall x, y :: 0 <= x < n && 0 <= y < n && m[x][y] ==> Closed(g, n, m, x, y)
    requires IsPath(g, n, g[0][0], p) && p[0] == (0, 0) && k < |p|
    ensures m[p[k].0][p[k].1]
  {
    if k > 0 {
      PathStaysInMask(g, n, m, p, k - 1);
      var a, b := p[k - 1], p[k];
      assert InBounds(n, a) && InBounds(n, b) && g[b.0][b.1] == g[0][0] && Adjacent(a, b);
      assert m[a.0][a.1] && Closed(g, n, m, a.0, a.1);
    }
  }

  /**
   * A mask that holds the corner and lets no corner-coloured neighbour of a marked
   * tile go unmarked covers the whole region.
   */
  lemma ClosedMaskCoversRegion(g: Grid, n: nat, m: Mask)
    requires IsSquare(g, n) && IsSquare(m, n) && n > 0 && m[0][0]
    requires forall x, y :: 0 <= x < n && 0 <= y < n && m[x][y] ==> Closed(g, n, m, x, y)
    ensures forall x, y :: 0 <= x < n && 0 <= y < n && InRegion(g, n, (x, y)) ==> m[x][y]
  {
    forall x, y | 0 <= x < n && 0 <= y < n && InRegion(g, n, (x, y)) ensures m[x][y] {
      var p: seq<Cell> :| Witness(g, n, p, (x, y));
      PathStaysInMask(g, n, m, p, |p| - 1);
    }
  }

  /**
   * The two halves of "a mask is exactly the region": every marked tile is reachable,
   * and the marked tiles are closed around the corner.
   */
  lemma MaskIsRegion(g: Grid, n: nat, m: Mask)
    requires IsSquare(g, n) && IsSquare(m, n) && n > 0 && m[0][0]
    requires forall x, y :: 0 <= x < n && 0 <= y < n && m[x][y] ==> Closed(g, n, m, x, y)
    requires forall x, y :: 0 <= x < n && 0 <= y < n && m[x][y] ==> InRegion(g, n, (x, y))
    ensures forall x, y :: 0 <= x < n && 0 <= y < n ==> (m[x][y] <==> InRegion(g, n, (x, y)))
  {
    ClosedMaskCoversRegion(g, n, m);
  }

  /** When both neighbours of the corner have other colours, the region is the corner alone. */
  lemma IsolatedCorner(g: Grid, n: nat, colour: int)
    requires IsSquare(g, n) && n > 0
    requires n > 1 ==> g[1][0] != g[0][0] && g[0][1] != g[0][0]
    ensures Flooded(g, n, colour) == g[0 := g[0][0 := colour]]
  {
    var m: Mask := seq(n, x requires 0 <= x < n => seq(n, y requires 0 <= y < n => x == 0 && y == 0));
    assert Closed(g, n, m, 0, 0);
    ClosedMaskCoversRegion(g, n, m);
    CornerInRegion(g, n);
    var f := Flooded(g, n, colour);
    var h := g[0 := g[0][0 := colour]];
    forall x | 0 <= x < n ensures f[x] == h[x] {
      forall y | 0 <= y < n ensures f[x][y] == h[x][y] {
        assert m[x][y] == (x == 0 && y == 0);
      }
    }
  }

  // ---------------------------------------------------------------- properties of a fill

  /** Filling with the colour the corner already has changes no tile. */
  lemma FloodWithCornerColourIsIdentity(g: Grid, n: nat)
    requires IsSquare(g, n) && n > 0
    ensures Flooded(g, n, g[0][0]) == g
  {
    var f := Flooded(g, n, g[0][0]);
    forall x | 0 <= x < n ensures f[x] == g[x] {
      forall y | 0 <= y < n ensures f[x][y] == g[x][y] {
        if InRegion(g, n, (x, y)) {
          RegionHasCornerColour(g, n, (x, y));
        }
      }
    }
  }

  /** After a fill the corner has the new colour and everything outside the old region is as it was. */
  lemma FloodedTiles(g: Grid, n: nat, colour: int, x: int, y: int)
    requires IsSquare(g, n) && 0 <= x < n && 0 <= y < n
    ensures Flooded(g, n, colour)[0][0] == colour
    ensures !InRegion(g, n, (x, y)) ==> Flooded(g, n, colour)[x][y] == g[x][y]
    ensures InRegion(g, n, (x, y)) ==> Flooded(g, n, colour)[x][y] == colour
  {
    CornerInRegion(g, n);
  }

  /** Regions only merge: every tile of the old region is in the region of the filled board. */
  lemma {:induction false} RegionGrows(g: Grid, n: nat, colour: int, c: Cell)
    requires IsSquare(g, n) && InRegion(g, n, c)
    ensures InRegion(Flooded(g, n, colour), n, c)
  {
    var f := Flooded(g, n, colour);
    var p: seq<Cell> :| Witness(g, n, p, c);
    CornerInRegion(g, n);
    assert f[0][0] == colour;
    forall k | 0 <= k < |p| ensures InBounds(n, p[k]) && f[p[k].0][p[k].1] == colour {
      PathPrefix(g, n, g[0][0], p, k + 1);
      assert p[..k + 1][k] == p[k];
      assert Witness(g, n, p[..k + 1], p[k]);
    }
    assert IsPath(f, n, f[0][0], p);
    assert Witness(f, n, p, c);
  }

  // ---------------------------------------------------------------- the win condition

  /** The L-shaped walk from (0, 0) down column 0 to row x, then right along row x to column y. */
  function LPath(x: nat, y: nat): (p: seq<Cell>)
    ensures |p| == x + y + 1 && p[0] == (0, 0) && p[|p| - 1] == (x, y)
    ensures forall k :: 0 <= k < |p| ==> 0 <= p[k].0 <= x && 0 <= p[k].1 <= y
    ensures forall k :: 0 <= k < |p| - 1 ==> Adjacent(p[k], p[k + 1])
  {
    seq(x + y + 1, k requires 0 <= k < x + y + 1 => if k <= x then (k, 0) else (x, k - x))
  }

  /** A board is won exactly when the corner's region is the whole board. */
  lemma UniformIffRegionIsWholeBoard(g: Grid, n: nat)
    requires IsSquare(g, n) && n > 0
    ensures IsUniform(g, n) <==> forall x, y :: 0 <= x < n && 0 <= y < n ==> InRegion(g, n, (x, y))
  {
    if IsUniform(g, n) {
      forall x, y | 0 <= x < n && 0 <= y < n ensures InRegion(g, n, (x, y)) {
        var p := LPath(x, y);
        assert IsPath(g, n, g[0][0], p);
        assert Witness(g, n, p, (x, y));
      }
    }
    if forall x, y :: 0 <= x < n && 0 <= y < n ==> InRegion(g, n, (x, y)) {
      forall x, y | 0 <= x < n && 0 <= y < n ensures g[x][y] == g[0][0] {
        RegionHasCornerColour(g, n, (x, y));
      }
    }
  }

  /** A uniform board of at least two rows stops being uniform when any one tile takes another colour. */
  lemma OneDifferentTileIsNotUniform(g: Grid, n: nat, x: int, y: int, v: int)
    requires IsSquare(g, n) && n > 1 && IsUniform(g, n)
    requires 0 <= x < n && 0 <= y < n && v != g[x][y]
    ensures !IsUniform(g[x := g[x][y := v]], n)
  {
    var h := g[x := g[x][y := v]];
    if x == 0 && y == 0 {
      assert h[1][0] == g[1][0] == g[0][0] != h[0][0];
    } else {
      assert h[x][y] == v != g[0][0] == h[0][0];
    }
  }
}
