/** The tile grid shared by every component: `layout[z][x]` is 1 for a wall and 0 for a
    path, row `z`, column `x`. */
module Grid {

  datatype Tile = Tile(x: int, z: int)

  type Layout = seq<seq<int>>

  function Min(a: int, b: int): int { if a <= b then a else b }
  function Max(a: int, b: int): int { if a <= b then b else a }

  predicate InGrid(g: Layout, t: Tile)
  {
    0 <= t.z < |g| && 0 <= t.x < |g[t.z]|
  }

  /** `layout[z][x] === 0`; a missing row or column is not open. */
  predicate IsOpen(g: Layout, t: Tile)
  {
    InGrid(g, t) && g[t.z][t.x] == 0
  }

  predicate IsSquare(g: Layout, n: int)
  {
    |g| == n && forall z :: 0 <= z < n ==> |g[z]| == n
  }

  /** Every cell holds 0 or 1. */
  predicate Binary(g: Layout)
  {
    forall z, x :: 0 <= z < |g| && 0 <= x < |g[z]| ==> g[z][x] == 0 || g[z][x] == 1
  }

  predicate SameShape(g0: Layout, g1: Layout)
  {
    |g0| == |g1| && forall z :: 0 <= z < |g0| ==> |g0[z]| == |g1[z]|
  }

  /** Going from `g0` to `g1` no open cell was closed. */
  ghost predicate NeverCloses(g0: Layout, g1: Layout)
  {
    SameShape(g0, g1) && forall t :: IsOpen(g0, t) ==> IsOpen(g1, t)
  }

  /** `g1` is `g0` with the single cell `t` opened. */
  ghost predicate OpensOne(g0: Layout, g1: Layout, t: Tile)
  {
    SameShape(g0, g1) && InGrid(g0, t) &&
    forall u :: InGrid(g0, u) ==> g1[u.z][u.x] == if u == t then 0 else g0[u.z][u.x]
  }

  // ---------------------------------------------------------------------------------
  // Row-major lists of tiles (the nested `forEach` over rows, then cells)

  /** The tiles of row `z` with column below `x` whose value is `v`, left to right. */
  function RowTiles(g: Layout, v: int, z: int, x: int): seq<Tile>
    requires 0 <= z < |g| && 0 <= x <= |g[z]|
    decreases x
  {
    if x == 0 then []
    else RowTiles(g, v, z, x - 1) + (if g[z][x - 1] == v then [Tile(x - 1, z)] else [])
  }

  /** The tiles of the rows above `z` whose value is `v`, in row-major order. */
  function TilesBefore(g: Layout, v: int, z: int): seq<Tile>
    requires 0 <= z <= |g|
    decreases z
  {
    if z == 0 then [] else TilesBefore(g, v, z - 1) + RowTiles(g, v, z - 1, |g[z - 1]|)
  }

  /** Every tile of the layout whose value is `v`, in row-major order. */
  function TilesWith(g: Layout, v: int): seq<Tile>
  {
    TilesBefore(g, v, |g|)
  }

  /** Row-major order on tiles: by row, then by column. */
  predicate Precedes(a: Tile, b: Tile)
  {
    a.z < b.z || (a.z == b.z && a.x < b.x)
  }

  predicate RowMajor(ts: seq<Tile>)
  {
    forall i, j :: 0 <= i < j < |ts| ==> Precedes(ts[i], ts[j])
  }

  lemma {:induction false} RowTilesMembers(g: Layout, v: int, z: int, x: int)
    requires 0 <= z < |g| && 0 <= x <= |g[z]|
    ensures forall t :: t in RowTiles(g, v, z, x) <==> t.z == z && 0 <= t.x < x && g[z][t.x] == v
    ensures RowMajor(RowTiles(g, v, z, x))
    decreases x
  {
    if x > 0 {
      RowTilesMembers(g, v, z, x - 1);
      var prev := RowTiles(g, v, z, x - 1);
      assert forall t :: t in prev ==> Precedes(t, Tile(x - 1, z));
    }
  }

  lemma {:induction false} TilesBeforeMembers(g: Layout, v: int, z: int)
    requires 0 <= z <= |g|
    ensures forall t :: t in TilesBefore(g, v, z) <==> 0 <= t.z < z && InGrid(g, t) && g[t.z][t.x] == v
    ensures RowMajor(TilesBefore(g, v, z))
    decreases z
  {
    if z > 0 {
      TilesBeforeMembers(g, v, z - 1);
      RowTilesMembers(g, v, z - 1, |g[z - 1]|);
      var a, b := TilesBefore(g, v, z - 1), RowTiles(g, v, z - 1, |g[z - 1]|);
      assert forall i, j :: 0 <= i < |a| && 0 <= j < |b| ==> Precedes(a[i], b[j]) by {
        forall i, j | 0 <= i < |a| && 0 <= j < |b| ensures Precedes(a[i], b[j]) {
          assert a[i] in a && b[j] in b;
        }
      }
    }
  }

  /** The row-major list of `v`-tiles holds exactly the tiles whose value is `v`, each
      once, in row-major order. */
  lemma TilesWithExactly(g: Layout, v: int)
    ensures forall t :: t in TilesWith(g, v) <==> InGrid(g, t) && g[t.z][t.x] == v
    ensures RowMajor(TilesWith(g, v))
    ensures forall i, j :: 0 <= i < j < |TilesWith(g, v)| ==> TilesWith(g, v)[i] != TilesWith(g, v)[j]
  {
    TilesBeforeMembers(g, v, |g|);
  }

  // ---------------------------------------------------------------------------------
  // Reachability from the start tile (1,1) through open cells

  const Start: Tile := Tile(1, 1)

  /** 4-neighbourhood. */
  predicate Adjacent(a: Tile, b: Tile)
  {
    (a.x == b.x && (a.z == b.z + 1 || b.z == a.z + 1)) ||
    (a.z == b.z && (a.x == b.x + 1 || b.x == a.x + 1))
  }

  /** `p` walks from (1,1) through open cells, one 4-neighbour step at a time. */
  ghost predicate OpenPath(g: Layout, p: seq<Tile>)
  {
    |p| > 0 && p[0] == Start &&
    (forall i :: 0 <= i < |p| ==> IsOpen(g, p[i])) &&
    (forall i :: 0 <= i < |p| - 1 ==> Adjacent(p[i], p[i + 1]))
  }

  ghost predicate Reachable(g: Layout, t: Tile)
  {
    exists p :: OpenPath(g, p) && p[|p| - 1] == t
  }

  /** Every open cell can be reached from (1,1). */
  ghost predicate Connected(g: Layout)
  {
    forall t {:trigger Reachable(g, t)} :: IsOpen(g, t) ==> Reachable(g, t)
  }

  lemma NeverClosesTrans(g0: Layout, g1: Layout, g2: Layout)
    requires NeverCloses(g0, g1) && NeverCloses(g1, g2)
    ensures NeverCloses(g0, g2)
  {
  }

  /** A path stays a path when no cell closes. */
  lemma PathSurvives(g0: Layout, g1: Layout, p: seq<Tile>)
    requires NeverCloses(g0, g1) && OpenPath(g0, p)
    ensures OpenPath(g1, p)
  {
  }

  /** Opening a wall cell next to an open cell keeps every open cell reachable. */
  lemma OpenBesideKeepsConnected(g0: Layout, g1: Layout, from: Tile, t: Tile)
    requires Connected(g0) && IsOpen(g0, from) && Adjacent(from, t)
    requires OpensOne(g0, g1, t)
    ensures Connected(g1) && NeverCloses(g0, g1)
  {
    assert NeverCloses(g0, g1) by {
      forall u | IsOpen(g0, u) ensures IsOpen(g1, u) {
        assert g1[u.z][u.x] == if u == t then 0 else g0[u.z][u.x];
      }
    }
    forall u | IsOpen(g1, u) ensures Reachable(g1, u) {
      if u == t {
        assert Reachable(g0, from);
        var p :| OpenPath(g0, p) && p[|p| - 1] == from;
        PathSurvives(g0, g1, p);
        var q := p + [t];
        assert OpenPath(g1, q) && q[|q| - 1] == t;
      } else {
        assert g1[u.z][u.x] == g0[u.z][u.x];
        assert IsOpen(g0, u) && Reachable(g0, u);
        var p :| OpenPath(g0, p) && p[|p| - 1] == u;
        PathSurvives(g0, g1, p);
      }
    }
  }
}
