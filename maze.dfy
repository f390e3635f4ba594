/** Maze generation of js/maze.js: a recursive-backtracker carve over a size x size grid
    of walls, a pass that punches extra holes, and one collision box per wall cell.
    The random direction orders and hole coordinates are inputs. */
module Maze {
  import opened Grid
  import opened Geometry

  /** A carving move `[dx, dy]`: two cells along one axis. */
  datatype Dir = Dir(dx: int, dz: int)

  /** The four moves in the order the source lists them before shuffling. */
  const Strides: seq<Dir> := [Dir(0, -2), Dir(2, 0), Dir(0, 2), Dir(-2, 0)]

  /** A shuffled copy of the four moves (sorting with a random comparator still yields
      a permutation). */
  predicate IsShuffle(order: seq<Dir>)
  {
    multiset(order) == multiset(Strides)
  }

  /** The cell a move lands on. */
  function Target(t: Tile, d: Dir): Tile { Tile(t.x + d.dx, t.z + d.dz) }

  /** The cell a move passes over: `[y + dy / 2][x + dx / 2]`. */
  function Between(t: Tile, d: Dir): Tile { Tile(t.x + d.dx / 2, t.z + d.dz / 2) }

  predicate InBounds(n: int, t: Tile) { 0 <= t.x < n && 0 <= t.z < n }

  predicate OddOdd(t: Tile) { t.x % 2 == 1 && t.z % 2 == 1 }

  /** The largest index carving can open: the last odd index below `n`. */
  function Reach(n: int): int { if n % 2 == 1 then n - 2 else n - 1 }

  /** The cells carving may open: inside [1, Reach(n)] on both axes, and never a cell
      with two even coordinates (targets are odd/odd, passed-over cells odd/even). */
  predicate Carvable(n: int, t: Tile)
  {
    1 <= t.x <= Reach(n) && 1 <= t.z <= Reach(n) && (t.x % 2 == 1 || t.z % 2 == 1)
  }

  ghost predicate CarvedShape(g: Layout, n: int)
  {
    forall t :: IsOpen(g, t) ==> Carvable(n, t)
  }

  /** What holds of the grid throughout carving. */
  ghost predicate CarveInv(g: Layout, n: int)
  {
    IsSquare(g, n) && Binary(g) && CarvedShape(g, n) && Connected(g)
  }

  /** Move `d` from `t` has been dealt with: its target is off the grid or open. */
  ghost predicate Settled(g: Layout, n: int, t: Tile, d: Dir)
  {
    InBounds(n, Target(t, d)) ==> IsOpen(g, Target(t, d))
  }

  /** The carve from `t` has finished: every move from `t` has been dealt with. */
  ghost predicate Explored(g: Layout, n: int, t: Tile)
  {
    Settled(g, n, t, Strides[0]) && Settled(g, n, t, Strides[1]) &&
    Settled(g, n, t, Strides[2]) && Settled(g, n, t, Strides[3])
  }

  /** Every open odd/odd cell has been explored, except those whose carve is still on
      the call stack. */
  ghost predicate ExploredExcept(g: Layout, n: int, active: set<Tile>)
  {
    forall t {:trigger Explored(g, n, t)} :: IsOpen(g, t) && OddOdd(t) && t !in active ==> Explored(g, n, t)
  }

  /** The wall cells, the measure that carving decreases. */
  ghost function Walls(g: Layout): set<Tile>
  {
    set z, x | 0 <= z < |g| && 0 <= x < |g[z]| && g[z][x] != 0 :: Tile(x, z)
  }

  /** The open cells with two odd coordinates: the rooms carving visits. */
  ghost function Rooms(g: Layout): set<Tile>
  {
    set z, x | 0 <= z < |g| && 0 <= x < |g[z]| && g[z][x] == 0 && OddOdd(Tile(x, z)) :: Tile(x, z)
  }

  /** The other open cells: the passages carving opens between two rooms. */
  ghost function Passages(g: Layout): set<Tile>
  {
    set z, x | 0 <= z < |g| && 0 <= x < |g[z]| && g[z][x] == 0 && !OddOdd(Tile(x, z)) :: Tile(x, z)
  }

  /** The two cells a passage joins: left and right of it in an even column, above and
      below it otherwise. */
  function EndA(u: Tile): Tile { if u.x % 2 == 0 then Tile(u.x - 1, u.z) else Tile(u.x, u.z - 1) }
  function EndB(u: Tile): Tile { if u.x % 2 == 0 then Tile(u.x + 1, u.z) else Tile(u.x, u.z + 1) }

  /** The open cells form a spanning tree of the rooms: every passage joins the two open
      cells on either side of it along its axis, and there is exactly one passage fewer
      than there are rooms, so (the grid being connected) no passage closes a loop. */
  ghost predicate SpanningTree(g: Layout)
  {
    (forall u :: IsPassage(g, u) ==> IsOpen(g, EndA(u)) && IsOpen(g, EndB(u))) &&
    |Passages(g)| + 1 == |Rooms(g)|
  }

  /** An open cell that is not a room. */
  predicate IsPassage(g: Layout, u: Tile)
  {
    IsOpen(g, u) && !OddOdd(u)
  }

  /** The cells of a `size` x `size` array as rows of a layout. */
  function Cells(m: array2<int>): (g: Layout)
    reads m
  {
    seq(m.Length0, z requires 0 <= z < m.Length0 reads m =>
      seq(m.Length1, x requires 0 <= x < m.Length1 reads m => m[z, x]))
  }

  /** One cell of `Cells`, and the lengths around it. */
  lemma CellAt(m: array2<int>, z: int, x: int)
    requires 0 <= z < m.Length0 && 0 <= x < m.Length1
    ensures |Cells(m)| == m.Length0 && |Cells(m)[z]| == m.Length1 && Cells(m)[z][x] == m[z, x]
  {
  }

  /** `Cells` reads the array cell by cell. */
  lemma CellsAre(m: array2<int>)
    ensures |Cells(m)| == m.Length0
    ensures forall z :: 0 <= z < m.Length0 ==> |Cells(m)[z]| == m.Length1
    ensures forall z, x :: 0 <= z < m.Length0 && 0 <= x < m.Length1 ==> Cells(m)[z][x] == m[z, x]
  {
  }

  // ---------------------------------------------------------------------------------
  // Lemmas about one carving move

  lemma WallsMembers(g: Layout)
    ensures forall t :: t in Walls(g) <==> InGrid(g, t) && g[t.z][t.x] != 0
  {
    forall t | InGrid(g, t) && g[t.z][t.x] != 0 ensures t in Walls(g) {
      assert t == Tile(t.x, t.z);
    }
  }

  lemma RoomsMembers(g: Layout)
    ensures forall t :: t in Rooms(g) <==> IsOpen(g, t) && OddOdd(t)
    ensures forall t :: t in Passages(g) <==> IsOpen(g, t) && !OddOdd(t)
  {
    forall t | IsOpen(g, t) ensures t in Rooms(g) || t in Passages(g) {
      assert t == Tile(t.x, t.z);
    }
  }

  /** A permutation of the four moves contains each of them. */
  lemma ShuffleCovers(order: seq<Dir>)
    requires IsShuffle(order)
    ensures |order| == 4
    ensures forall d :: d in Strides ==> d in order
    ensures forall j :: 0 <= j < |order| ==> order[j] in Strides
  {
    assert |order| == |multiset(order)| == |multiset(Strides)| == 4;
    forall d | d in Strides ensures d in order {
      assert d in multiset(Strides);
    }
    forall j | 0 <= j < |order| ensures order[j] in Strides {
      assert order[j] in multiset(order);
    }
  }

  /** The parity of the neighbours of an odd index. */
  lemma OddNeighbours(a: int)
    requires a % 2 == 1
    ensures (a - 2) % 2 == 1 && (a + 2) % 2 == 1 && (a - 1) % 2 == 0 && (a + 1) % 2 == 0
  {
  }

  /** An odd index below `n` is at most `Reach(n)`. */
  lemma OddWithinReach(a: int, n: int)
    requires a % 2 == 1 && a < n
    ensures a <= Reach(n)
  {
  }

  /** Where one move from an odd/odd cell lands: another odd/odd cell in carving range. */
  lemma MoveTarget(n: int, c: Tile, d: Dir)
    requires Carvable(n, c) && OddOdd(c) && d in Strides && InBounds(n, Target(c, d))
    ensures OddOdd(Target(c, d)) && Carvable(n, Target(c, d))
  {
    var t := Target(c, d);
    assert t.x == c.x + d.dx && t.z == c.z + d.dz && 0 <= t.x < n && 0 <= t.z < n;
    StrideParts(d);
    OddStep(c.x, d.dx, n);
    OddStep(c.z, d.dz, n);
    assert t.x % 2 == 1 && 1 <= t.x <= Reach(n);
    assert t.z % 2 == 1 && 1 <= t.z <= Reach(n);
  }

  /** One axis of a move: an odd index shifted by -2, 0 or 2 and still below `n` stays
      odd and within carving range. */
  lemma OddStep(a: int, k: int, n: int)
    requires a % 2 == 1 && (k == -2 || k == 0 || k == 2) && 0 <= a + k < n
    ensures (a + k) % 2 == 1 && 1 <= a + k <= Reach(n)
  {
    OddShift(a, k);
    OddWithinReach(a + k, n);
  }

  /** Each component of a move is -2, 0 or 2. */
  lemma StrideParts(d: Dir)
    requires d in Strides
    ensures d.dx == -2 || d.dx == 0 || d.dx == 2
    ensures d.dz == -2 || d.dz == 0 || d.dz == 2
  {
  }

  /** Shifting an odd index by -2, 0 or 2 keeps it odd. */
  lemma OddShift(a: int, k: int)
    requires a % 2 == 1 && (k == -2 || k == 0 || k == 2)
    ensures (a + k) % 2 == 1
  {
  }

  /** The cell a move passes over lies next to both ends and has one even coordinate. */
  lemma MoveBetween(c: Tile, d: Dir)
    requires OddOdd(c) && d in Strides
    ensures Adjacent(c, Between(c, d)) && Adjacent(Between(c, d), Target(c, d))
    ensures Between(c, d) != c && Between(c, d) != Target(c, d) && !OddOdd(Between(c, d))
  {
    OddNeighbours(c.x);
    OddNeighbours(c.z);
    assert d == Dir(0, -2) || d == Dir(2, 0) || d == Dir(0, 2) || d == Dir(-2, 0);
  }

  /** Where one move from an odd/odd cell lands, and what it passes over. */
  lemma MoveGeometry(n: int, c: Tile, d: Dir)
    requires Carvable(n, c) && OddOdd(c) && d in Strides && InBounds(n, Target(c, d))
    ensures OddOdd(Target(c, d)) && Carvable(n, Target(c, d)) && Carvable(n, Between(c, d))
    ensures Adjacent(c, Between(c, d)) && Adjacent(Between(c, d), Target(c, d))
    ensures Between(c, d) != c && Between(c, d) != Target(c, d) && !OddOdd(Between(c, d))
  {
    MoveTarget(n, c, d);
    MoveBetween(c, d);
  }

  /** The effect of one move on a layout: the target and the passed-over cell open,
      nothing else changes. */
  ghost predicate Moved(g0: Layout, g2: Layout, c: Tile, d: Dir)
  {
    SameShape(g0, g2) && InGrid(g0, Target(c, d)) && InGrid(g0, Between(c, d)) &&
    forall u :: InGrid(g0, u) ==>
      g2[u.z][u.x] == if u == Target(c, d) || u == Between(c, d) then 0 else g0[u.z][u.x]
  }

  lemma MoveKeepsConnected(g0: Layout, g2: Layout, c: Tile, d: Dir)
    requires Connected(g0) && IsOpen(g0, c) && Moved(g0, g2, c, d)
    requires Adjacent(c, Between(c, d)) && Adjacent(Between(c, d), Target(c, d))
    requires Between(c, d) != Target(c, d)
    ensures Connected(g2) && NeverCloses(g0, g2)
  {
    var t, b := Target(c, d), Between(c, d);
    // open the passed-over cell first, then the target
    var g1 := g0[b.z := g0[b.z][b.x := 0]];
    assert OpensOne(g0, g1, b);
    OpenBesideKeepsConnected(g0, g1, c, b);
    assert OpensOne(g1, g2, t);
    OpenBesideKeepsConnected(g1, g2, b, t);
  }

  lemma MoveKeepsShape(g0: Layout, g2: Layout, n: int, c: Tile, d: Dir)
    requires Binary(g0) && CarvedShape(g0, n) && Moved(g0, g2, c, d)
    requires Carvable(n, Target(c, d)) && Carvable(n, Between(c, d))
    ensures Binary(g2) && CarvedShape(g2, n)
  {
    forall u | IsOpen(g2, u) ensures Carvable(n, u) {
      if u != Target(c, d) && u != Between(c, d) { assert IsOpen(g0, u); }
    }
    forall z, x | 0 <= z < |g2| && 0 <= x < |g2[z]| ensures g2[z][x] == 0 || g2[z][x] == 1 {
      assert InGrid(g0, Tile(x, z));
    }
  }

  lemma MoveRemovesWall(g0: Layout, g2: Layout, c: Tile, d: Dir)
    requires Moved(g0, g2, c, d) && g0[c.z + d.dz][c.x + d.dx] != 0
    ensures Walls(g2) < Walls(g0)
  {
    var t := Target(c, d);
    WallsMembers(g0);
    WallsMembers(g2);
    assert t in Walls(g0) && t !in Walls(g2);
    forall u | u in Walls(g2) ensures u in Walls(g0) {
      assert InGrid(g0, u);
    }
  }

  lemma NeverClosesKeepsWalls(g0: Layout, g1: Layout)
    requires NeverCloses(g0, g1)
    ensures Walls(g1) <= Walls(g0)
  {
    WallsMembers(g0);
    WallsMembers(g1);
    forall u | u in Walls(g1) ensures u in Walls(g0) {
      assert InGrid(g0, u) && !IsOpen(g1, u);
    }
  }

  lemma MoveKeepsExplored(g0: Layout, g2: Layout, n: int, c: Tile, d: Dir, active: set<Tile>)
    requires NeverCloses(g0, g2) && Moved(g0, g2, c, d) && !OddOdd(Between(c, d))
    requires ExploredExcept(g0, n, active + {c})
    ensures ExploredExcept(g2, n, active + {c} + {Target(c, d)})
  {
    forall u | IsOpen(g2, u) && OddOdd(u) && u !in active + {c} + {Target(c, d)}
      ensures Explored(g2, n, u)
    {
      assert IsOpen(g0, u);
      assert Explored(g0, n, u);
      assert Settled(g0, n, u, Strides[0]) && Settled(g0, n, u, Strides[1]);
      assert Settled(g0, n, u, Strides[2]) && Settled(g0, n, u, Strides[3]);
    }
  }

  /** One carving move from the open odd/odd cell `c` to the wall cell two steps away,
      opening that cell and the cell passed over, keeps the carving invariant, removes a
      wall, and leaves exactly one newly opened odd/odd cell, the target. */
  lemma CarveMove(g0: Layout, g2: Layout, n: int, c: Tile, d: Dir, active: set<Tile>)
    requires CarveInv(g0, n) && IsOpen(g0, c) && OddOdd(c)
    requires d in Strides && InBounds(n, Target(c, d)) && g0[c.z + d.dz][c.x + d.dx] == 1
    requires Moved(g0, g2, c, d)
    requires ExploredExcept(g0, n, active + {c})
    requires SpanningTree(g0)
    ensures CarveInv(g2, n) && NeverCloses(g0, g2) && SpanningTree(g2)
    ensures IsOpen(g2, Target(c, d)) && OddOdd(Target(c, d))
    ensures Walls(g2) < Walls(g0)
    ensures ExploredExcept(g2, n, active + {c} + {Target(c, d)})
  {
    MoveKeepsCarveInv(g0, g2, n, c, d, active);
    MoveKeepsTreeOfCarve(g0, g2, n, c, d);
  }

  /** The invariant part of `CarveMove`: shape, connectivity, walls and exploration. */
  lemma MoveKeepsCarveInv(g0: Layout, g2: Layout, n: int, c: Tile, d: Dir, active: set<Tile>)
    requires CarveInv(g0, n) && IsOpen(g0, c) && OddOdd(c)
    requires d in Strides && InBounds(n, Target(c, d)) && g0[c.z + d.dz][c.x + d.dx] == 1
    requires Moved(g0, g2, c, d)
    requires ExploredExcept(g0, n, active + {c})
    ensures CarveInv(g2, n) && NeverCloses(g0, g2)
    ensures IsOpen(g2, Target(c, d)) && OddOdd(Target(c, d))
    ensures Walls(g2) < Walls(g0)
    ensures ExploredExcept(g2, n, active + {c} + {Target(c, d)})
  {
    assert Carvable(n, c);
    MoveGeometry(n, c, d);
    MoveKeepsConnected(g0, g2, c, d);
    MoveKeepsShape(g0, g2, n, c, d);
    MoveRemovesWall(g0, g2, c, d);
    MoveKeepsExplored(g0, g2, n, c, d, active);
  }

  /** The tree part of `CarveMove`: a move onto a wall cell adds one room and one passage. */
  lemma MoveKeepsTreeOfCarve(g0: Layout, g2: Layout, n: int, c: Tile, d: Dir)
    requires CarveInv(g0, n) && IsOpen(g0, c) && OddOdd(c)
    requires d in Strides && InBounds(n, Target(c, d)) && g0[c.z + d.dz][c.x + d.dx] == 1
    requires Moved(g0, g2, c, d)
    requires SpanningTree(g0)
    ensures SpanningTree(g2)
  {
    assert Target(c, d) == Tile(c.x + d.dx, c.z + d.dz);
    assert !IsOpen(g0, Target(c, d));
    MoveKeepsTree(g0, g2, n, c, d);
  }

  /** The passed-over cell of a move joins exactly the cell the move starts from and the
      cell it lands on. */
  lemma BetweenJoins(c: Tile, d: Dir)
    requires OddOdd(c) && d in Strides
    ensures {EndA(Between(c, d)), EndB(Between(c, d))} == {c, Target(c, d)}
  {
    OddNeighbours(c.x);
    OddNeighbours(c.z);
    assert d == Dir(0, -2) || d == Dir(2, 0) || d == Dir(0, 2) || d == Dir(-2, 0);
  }

  /** After a move the open cells are those open before, the target and the cell passed
      over. */
  lemma MovedOpens(g0: Layout, g2: Layout, c: Tile, d: Dir)
    requires Moved(g0, g2, c, d)
    ensures forall u :: IsOpen(g2, u) <==> IsOpen(g0, u) || u == Target(c, d) || u == Between(c, d)
  {
    forall u ensures IsOpen(g2, u) <==> IsOpen(g0, u) || u == Target(c, d) || u == Between(c, d) {
      assert InGrid(g2, u) <==> InGrid(g0, u);
    }
  }

  /** Opening a new room `t` and a new passage `b` adds one to each count. */
  lemma OpenRoomAndPassage(g0: Layout, g2: Layout, t: Tile, b: Tile)
    requires OddOdd(t) && !OddOdd(b) && !IsOpen(g0, t) && !IsOpen(g0, b)
    requires forall u :: IsOpen(g2, u) <==> IsOpen(g0, u) || u == t || u == b
    ensures Rooms(g2) == Rooms(g0) + {t} && t !in Rooms(g0)
    ensures Passages(g2) == Passages(g0) + {b} && b !in Passages(g0)
  {
    RoomsMembers(g0);
    RoomsMembers(g2);
  }

  /** A carving move keeps the open cells a spanning tree: the passed-over cell was still
      a wall (a passage beside the walled target would contradict the tree), so the move
      adds exactly one room, the target, and one passage joining it to `c`. */
  lemma MoveKeepsTree(g0: Layout, g2: Layout, n: int, c: Tile, d: Dir)
    requires CarvedShape(g0, n) && IsOpen(g0, c) && OddOdd(c) && SpanningTree(g0)
    requires d in Strides && InBounds(n, Target(c, d)) && !IsOpen(g0, Target(c, d))
    requires Moved(g0, g2, c, d)
    ensures SpanningTree(g2)
    ensures Rooms(g2) == Rooms(g0) + {Target(c, d)} && Target(c, d) !in Rooms(g0)
    ensures Passages(g2) == Passages(g0) + {Between(c, d)} && Between(c, d) !in Passages(g0)
  {
    var t, b := Target(c, d), Between(c, d);
    assert Carvable(n, c);
    MoveGeometry(n, c, d);
    BetweenJoins(c, d);
    assert IsPassage(g0, b) ==> IsOpen(g0, EndA(b)) && IsOpen(g0, EndB(b));
    assert t == EndA(b) || t == EndB(b);
    MovedOpens(g0, g2, c, d);
    OpenRoomAndPassage(g0, g2, t, b);
    forall u | IsPassage(g2, u) ensures IsOpen(g2, EndA(u)) && IsOpen(g2, EndB(u)) {
      if u != b {
        assert IsPassage(g0, u);
      }
    }
  }

  /** The 5 x 5 grid with every carvable cell open: four rooms and the four passages
      between them, which run in a loop around (2,2). */
  function OpenField(): Layout
  {
    [[1, 1, 1, 1, 1], [1, 0, 0, 0, 1], [1, 0, 1, 0, 1], [1, 0, 0, 0, 1], [1, 1, 1, 1, 1]]
  }

  lemma OpenFieldCells(t: Tile)
    ensures IsOpen(OpenField(), t) <==> 1 <= t.x <= 3 && 1 <= t.z <= 3 && t != Tile(2, 2)
  {
    var g := OpenField();
    if 1 <= t.x <= 3 && 1 <= t.z <= 3 {
      assert g[t.z][t.x] == if t == Tile(2, 2) then 1 else 0;
    }
  }

  lemma OpenFieldRooms()
    ensures Rooms(OpenField()) == {Tile(1, 1), Tile(3, 1), Tile(1, 3), Tile(3, 3)}
  {
    RoomsMembers(OpenField());
    forall t ensures t in Rooms(OpenField()) <==> t in {Tile(1, 1), Tile(3, 1), Tile(1, 3), Tile(3, 3)} {
      OpenFieldCells(t);
    }
  }

  lemma OpenFieldPassages()
    ensures Passages(OpenField()) == {Tile(2, 1), Tile(1, 2), Tile(3, 2), Tile(2, 3)}
  {
    RoomsMembers(OpenField());
    forall t ensures t in Passages(OpenField()) <==> t in {Tile(2, 1), Tile(1, 2), Tile(3, 2), Tile(2, 3)} {
      OpenFieldCells(t);
    }
  }

  /** The open field meets the carving shape (only carvable cells open) but is not a
      tree: it has four passages for four rooms. Carving never produces it, because a
      move only ever enters a wall. */
  lemma OpenFieldIsNoTree()
    ensures CarvedShape(OpenField(), 5) && !SpanningTree(OpenField())
  {
    forall t | IsOpen(OpenField(), t) ensures Carvable(5, t) {
      OpenFieldCells(t);
    }
    OpenFieldRooms();
    OpenFieldPassages();
  }

  /** When the carve from (1,1) has finished, every odd/odd cell of the grid is open:
      carving reaches the whole odd sub-lattice. */
  lemma {:induction false} OddCellOpen(g: Layout, n: int, t: Tile)
    requires IsSquare(g, n) && IsOpen(g, Start) && ExploredExcept(g, n, {})
    requires InBounds(n, t) && OddOdd(t)
    ensures IsOpen(g, t)
    decreases t.x + t.z
  {
    if t != Start {
      if t.x >= 3 {
        var u := Tile(t.x - 2, t.z);
        OddCellOpen(g, n, u);
        assert Explored(g, n, u) && Settled(g, n, u, Strides[1]);
      } else {
        var u := Tile(t.x, t.z - 2);
        OddCellOpen(g, n, u);
        assert Explored(g, n, u) && Settled(g, n, u, Strides[2]);
      }
    }
  }

  // ---------------------------------------------------------------------------------
  // The carve recursion

  /** The two writes of one carving move: open the target cell, then the cell passed over. */
  method OpenPassage(maze: array2<int>, x: int, y: int, d: Dir)
    requires InBounds(maze.Length0, Target(Tile(x, y), d)) && InBounds(maze.Length0, Between(Tile(x, y), d))
    requires maze.Length0 == maze.Length1
    modifies maze
    ensures Moved(old(Cells(maze)), Cells(maze), Tile(x, y), d)
  {
    ghost var g0 := Cells(maze);
    var nx, ny := x + d.dx, y + d.dz;
    maze[ny, nx] := 0;
    maze[y + d.dz / 2, x + d.dx / 2] := 0;
    ghost var g2 := Cells(maze);
    forall u | InGrid(g0, u)
      ensures g2[u.z][u.x] == if u == Target(Tile(x, y), d) || u == Between(Tile(x, y), d) then 0 else g0[u.z][u.x]
    {
      assert g2[u.z][u.x] == maze[u.z, u.x];
    }
  }

  /** Settled moves stay settled when no cell closes, and a newly settled move joins them. */
  lemma SettledSurvives(g0: Layout, g1: Layout, n: int, c: Tile, ds: seq<Dir>, k: int)
    requires NeverCloses(g0, g1) && 0 <= k < |ds|
    requires forall j :: 0 <= j < k ==> Settled(g0, n, c, ds[j])
    requires Settled(g1, n, c, ds[k])
    ensures forall j :: 0 <= j < k + 1 ==> Settled(g1, n, c, ds[j])
  {
  }

  /** Once every move of a shuffle from `c` is settled, `c` is explored and leaves the
      active set. */
  lemma FinishExplored(g: Layout, n: int, c: Tile, dirs: seq<Dir>, active: set<Tile>)
    requires IsShuffle(dirs)
    requires forall j :: 0 <= j < |dirs| ==> Settled(g, n, c, dirs[j])
    requires ExploredExcept(g, n, active + {c})
    ensures ExploredExcept(g, n, active)
  {
    ShuffleCovers(dirs);
    forall k | 0 <= k < 4 ensures Settled(g, n, c, Strides[k]) {
      var j :| 0 <= j < |dirs| && dirs[j] == Strides[k];
    }
    assert Explored(g, n, c);
  }

  /** `carve(x, y)`: visit the four moves from (x, y) in the order `shuffle` gives for
      that cell, carving toward each. Each cell is carved from at most once (its carve
      starts just after it is opened), so a per-cell order covers every sequence of
      shuffles. `active` holds the cells whose carve is further up the call stack. On
      return no open cell has closed, the carving invariant still holds, and (x, y) is
      explored. */
  method Carve(maze: array2<int>, x: int, y: int, shuffle: Tile -> seq<Dir>, ghost active: set<Tile>)
    requires maze.Length0 == maze.Length1
    requires forall t :: IsShuffle(shuffle(t))
    requires InBounds(maze.Length0, Tile(x, y)) && OddOdd(Tile(x, y)) && maze[y, x] == 0
    requires CarveInv(Cells(maze), maze.Length0)
    requires ExploredExcept(Cells(maze), maze.Length0, active + {Tile(x, y)})
    requires SpanningTree(Cells(maze))
    modifies maze
    decreases Walls(Cells(maze)), 2
    ensures CarveInv(Cells(maze), maze.Length0) && SpanningTree(Cells(maze))
    ensures NeverCloses(old(Cells(maze)), Cells(maze))
    ensures ExploredExcept(Cells(maze), maze.Length0, active)
  {
    var n := maze.Length0;
    ghost var here := Tile(x, y);
    var dirs := shuffle(Tile(x, y));
    var i := 0;
    while i < |dirs|
      invariant 0 <= i <= |dirs|
      invariant IsOpen(Cells(maze), Tile(x, y))
      invariant CarveInv(Cells(maze), n) && SpanningTree(Cells(maze))
      invariant NeverCloses(old(Cells(maze)), Cells(maze))
      invariant ExploredExcept(Cells(maze), n, active + {here})
      invariant forall j :: 0 <= j < i ==> Settled(Cells(maze), n, here, dirs[j])
    {
      ShuffleCovers(dirs);
      ghost var g0 := Cells(maze);
      NeverClosesKeepsWalls(old(Cells(maze)), g0);
      CarveToward(maze, x, y, dirs[i], shuffle, active, Walls(old(Cells(maze))));
      SettledSurvives(g0, Cells(maze), n, here, dirs, i);
      NeverClosesTrans(old(Cells(maze)), g0, Cells(maze));
      i := i + 1;
    }
    FinishExplored(Cells(maze), n, here, dirs, active);
  }

  /** One iteration of the loop in `carve`: when the move lands inside the grid on a wall,
      carve through to it. Afterwards the move is settled. `bound` is the wall set when
      the enclosing carve started; it bounds the recursion. */
  method CarveToward(maze: array2<int>, x: int, y: int, d: Dir, shuffle: Tile -> seq<Dir>, ghost active: set<Tile>,
                     ghost bound: set<Tile>)
    requires maze.Length0 == maze.Length1
    requires forall t :: IsShuffle(shuffle(t))
    requires d in Strides
    requires InBounds(maze.Length0, Tile(x, y)) && OddOdd(Tile(x, y)) && maze[y, x] == 0
    requires CarveInv(Cells(maze), maze.Length0)
    requires ExploredExcept(Cells(maze), maze.Length0, active + {Tile(x, y)})
    requires Walls(Cells(maze)) <= bound
    requires SpanningTree(Cells(maze))
    modifies maze
    decreases bound, 1
    ensures IsOpen(Cells(maze), Tile(x, y))
    ensures CarveInv(Cells(maze), maze.Length0) && SpanningTree(Cells(maze))
    ensures NeverCloses(old(Cells(maze)), Cells(maze))
    ensures ExploredExcept(Cells(maze), maze.Length0, active + {Tile(x, y)})
    ensures Settled(Cells(maze), maze.Length0, Tile(x, y), d)
  {
    var n := maze.Length0;
    var nx, ny := x + d.dx, y + d.dz;
    if nx >= 0 && ny >= 0 && nx < n && ny < n && maze[ny, nx] == 1 {
      CellAt(maze, ny, nx);
      CarveThrough(maze, x, y, d, shuffle, active, bound);
    } else if InBounds(n, Target(Tile(x, y), d)) {
      CellAt(maze, ny, nx);
      assert IsOpen(Cells(maze), Target(Tile(x, y), d));
    }
  }

  /** The carving branch of `CarveToward`: the move lands on a wall inside the grid, so
      open the target and the cell passed over and carve from the target. */
  method CarveThrough(maze: array2<int>, x: int, y: int, d: Dir, shuffle: Tile -> seq<Dir>, ghost active: set<Tile>,
                      ghost bound: set<Tile>)
    requires maze.Length0 == maze.Length1
    requires forall t :: IsShuffle(shuffle(t))
    requires d in Strides
    requires InBounds(maze.Length0, Tile(x, y)) && OddOdd(Tile(x, y)) && maze[y, x] == 0
    requires InBounds(maze.Length0, Target(Tile(x, y), d)) && maze[y + d.dz, x + d.dx] == 1
    requires CarveInv(Cells(maze), maze.Length0)
    requires ExploredExcept(Cells(maze), maze.Length0, active + {Tile(x, y)})
    requires Walls(Cells(maze)) <= bound
    requires SpanningTree(Cells(maze))
    modifies maze
    decreases bound, 0
    ensures IsOpen(Cells(maze), Tile(x, y))
    ensures CarveInv(Cells(maze), maze.Length0) && SpanningTree(Cells(maze))
    ensures NeverCloses(old(Cells(maze)), Cells(maze))
    ensures ExploredExcept(Cells(maze), maze.Length0, active + {Tile(x, y)})
    ensures Settled(Cells(maze), maze.Length0, Tile(x, y), d)
  {
    var n := maze.Length0;
    ghost var here := Tile(x, y);
    var nx, ny := x + d.dx, y + d.dz;
    ghost var g0 := Cells(maze);
    CellAt(maze, ny, nx);
    OpenPassage(maze, x, y, d);
    ghost var g2 := Cells(maze);
    CarveMove(g0, g2, n, here, d, active);
    assert Target(here, d) == Tile(nx, ny) && Walls(g2) < bound;
    CellAt(maze, ny, nx);
    assert maze[ny, nx] == 0;
    Carve(maze, nx, ny, shuffle, active + {here});
    ghost var g3 := Cells(maze);
    NeverClosesTrans(g0, g2, g3);
    TowardSettled(g0, g2, g3, n, here, d);
  }

  /** After the carve from a move's target returns, the cell the move started from is
      still open and the move is settled. */
  lemma TowardSettled(g0: Layout, g2: Layout, g3: Layout, n: int, here: Tile, d: Dir)
    requires IsOpen(g0, here) && IsOpen(g2, Target(here, d))
    requires NeverCloses(g0, g3) && NeverCloses(g2, g3)
    ensures IsOpen(g3, here) && Settled(g3, n, here, d)
  {
  }

  /** Opens one cell of the array and changes nothing else. */
  method OpenCell(maze: array2<int>, x: int, z: int)
    requires 0 <= z < maze.Length0 && 0 <= x < maze.Length1
    modifies maze
    ensures Cells(maze) == old(Cells(maze))[z := old(Cells(maze))[z][x := 0]]
  {
    ghost var g0 := Cells(maze);
    maze[z, x] := 0;
    ghost var g1 := Cells(maze);
    CellsAre(maze);
    forall r | 0 <= r < maze.Length0 ensures g1[r] == g0[z := g0[z][x := 0]][r] {
      assert |g1[r]| == |g0[r]|;
    }
  }

  // ---------------------------------------------------------------------------------
  // Carving from the start cell

  /** A `size` x `size` grid of walls. */
  function AllWalls(n: nat): Layout
  {
    seq(n, _ => seq(n, _ => 1))
  }

  /** The grid before carving starts: all walls except (1,1). It satisfies the carving
      invariant, and (1,1), the only open cell, is the only one not yet explored. */
  lemma StartGrid(n: nat)
    requires n >= 2
    ensures CarveInv(AllWalls(n)[1 := AllWalls(n)[1][1 := 0]], n)
    ensures ExploredExcept(AllWalls(n)[1 := AllWalls(n)[1][1 := 0]], n, {Start})
    ensures SpanningTree(AllWalls(n)[1 := AllWalls(n)[1][1 := 0]])
  {
    var g := AllWalls(n)[1 := AllWalls(n)[1][1 := 0]];
    assert forall t :: IsOpen(g, t) ==> t == Start;
    forall t | IsOpen(g, t) ensures Reachable(g, t) {
      assert OpenPath(g, [Start]);
    }
    assert IsOpen(g, Start);
    SingleRoomTree(g);
  }

  /** A grid whose only open cell is (1,1) is a tree of one room and no passage. */
  lemma SingleRoomTree(g: Layout)
    requires forall t :: IsOpen(g, t) <==> t == Start
    ensures SpanningTree(g)
  {
    RoomsMembers(g);
    assert Rooms(g) == {Start};
    assert Passages(g) == {};
  }

  /** Allocates the all-wall grid, opens (1,1) and carves from there. Every odd/odd cell
      ends up open, every open cell is reachable from (1,1), and only carvable cells are
      open. */
  method CarveFromStart(size: int, shuffle: Tile -> seq<Dir>) returns (maze: array2<int>)
    requires size >= 2
    requires forall t :: IsShuffle(shuffle(t))
    ensures fresh(maze) && maze.Length0 == size && maze.Length1 == size
    ensures CarveInv(Cells(maze), size) && SpanningTree(Cells(maze))
    ensures forall t :: InBounds(size, t) && OddOdd(t) ==> IsOpen(Cells(maze), t)
  {
    maze := NewWallGrid(size);
    OpenCell(maze, 1, 1);
    CellsAre(maze);
    StartGrid(size);
    Carve(maze, 1, 1, shuffle, {});
    AllOddCellsOpen(Cells(maze), size);
  }

  /** `Array.from({ length: size }, () => Array(size).fill(1))`: a fresh all-wall grid. */
  method NewWallGrid(size: nat) returns (maze: array2<int>)
    ensures fresh(maze) && maze.Length0 == size && maze.Length1 == size
    ensures Cells(maze) == AllWalls(size)
  {
    maze := new int[size, size]((_, _) => 1);
    CellsAre(maze);
    forall r | 0 <= r < size ensures Cells(maze)[r] == AllWalls(size)[r] {
      assert |Cells(maze)[r]| == size;
    }
  }

  lemma AllOddCellsOpen(g: Layout, n: int)
    requires IsSquare(g, n) && IsOpen(g, Start) && ExploredExcept(g, n, {})
    ensures forall t :: InBounds(n, t) && OddOdd(t) ==> IsOpen(g, t)
  {
    forall t | InBounds(n, t) && OddOdd(t) ensures IsOpen(g, t) {
      OddCellOpen(g, n, t);
    }
  }

  /** The border that carving never opens: row and column 0 always, and the last row and
      column when the size is odd. */
  predicate OnBorder(n: int, t: Tile)
  {
    t.x == 0 || t.z == 0 || (n % 2 == 1 && (t.x == n - 1 || t.z == n - 1))
  }

  /** Carving never opens a border cell, nor a cell whose coordinates are both even. */
  lemma CarvedAvoidsBorder(g: Layout, n: int, t: Tile)
    requires CarvedShape(g, n) && InBounds(n, t)
    requires OnBorder(n, t) || (t.x % 2 == 0 && t.z % 2 == 0)
    ensures !IsOpen(g, t)
  {
    assert IsOpen(g, t) ==> Carvable(n, t);
  }

  // ---------------------------------------------------------------------------------
  // The hole pass

  /** `Math.floor(size * size * 0.05)`: the number of hole attempts, the largest
      whole number not above 5% of the cell count. */
  function HoleCount(size: int): (r: int)
    ensures 0 <= r
    ensures r as real <= (size * size) as real * 0.05 < r as real + 1.0
  {
    ((size * size) as real * 0.05).Floor
  }

  /** A hole attempt at `t` opens it: the cell is a wall and lies strictly inside the two
      outermost rings. */
  predicate HoleAllowed(g: Layout, n: int, t: Tile)
  {
    InGrid(g, t) && g[t.z][t.x] == 1 && 1 < t.x < n - 2 && 1 < t.z < n - 2
  }

  /** One hole attempt. */
  function Punch(g: Layout, n: int, t: Tile): Layout
  {
    if HoleAllowed(g, n, t) then g[t.z := g[t.z][t.x := 0]] else g
  }

  /** The hole attempts at `picks`, in order. */
  function Punched(g: Layout, n: int, picks: seq<Tile>): Layout
    decreases |picks|
  {
    if picks == [] then g else Punch(Punched(g, n, picks[..|picks| - 1]), n, picks[|picks| - 1])
  }

  /** The hole pass keeps the grid square and 0/1 and never closes a cell. */
  lemma {:induction false} PunchedKeepsShape(g: Layout, n: int, picks: seq<Tile>)
    requires IsSquare(g, n) && Binary(g)
    ensures IsSquare(Punched(g, n, picks), n) && Binary(Punched(g, n, picks))
    ensures NeverCloses(g, Punched(g, n, picks))
    decreases |picks|
  {
    if picks != [] {
      var front, t := picks[..|picks| - 1], picks[|picks| - 1];
      PunchedKeepsShape(g, n, front);
      var h := Punched(g, n, front);
      var h1 := Punch(h, n, t);
      assert Punched(g, n, picks) == h1;
      assert NeverCloses(h, h1) by {
        forall u | IsOpen(h, u) ensures IsOpen(h1, u) {
          assert InGrid(h1, u);
        }
      }
      NeverClosesTrans(g, h, h1);
      forall z, x | 0 <= z < |h1| && 0 <= x < |h1[z]| ensures h1[z][x] == 0 || h1[z][x] == 1 {
        assert 0 <= x < |h[z]|;
      }
    }
  }

  /** Every cell the hole pass opens is one of the picks and lies strictly inside the two
      outermost rings. */
  lemma {:induction false} PunchedOpensPicked(g: Layout, n: int, picks: seq<Tile>)
    requires IsSquare(g, n)
    ensures forall t :: IsOpen(Punched(g, n, picks), t) && !IsOpen(g, t) ==>
              t in picks && 1 < t.x < n - 2 && 1 < t.z < n - 2
    decreases |picks|
  {
    if picks != [] {
      var front, t := picks[..|picks| - 1], picks[|picks| - 1];
      PunchedOpensPicked(g, n, front);
      var h := Punched(g, n, front);
      var h1 := Punch(h, n, t);
      assert Punched(g, n, picks) == h1;
      forall u | IsOpen(h1, u) && !IsOpen(g, u) ensures u in picks && 1 < u.x < n - 2 && 1 < u.z < n - 2 {
        if u != t {
          assert IsOpen(h, u);
          assert u in front;
        }
      }
    }
  }

  /** A single hole attempt turns at most the picked cell from wall to open. */
  lemma PunchRemovesAtMostOne(h: Layout, n: int, t: Tile)
    ensures Walls(h) - Walls(Punch(h, n, t)) <= {t}
  {
    var h1 := Punch(h, n, t);
    WallsMembers(h);
    WallsMembers(h1);
    forall u | u in Walls(h) && u != t ensures u in Walls(h1) {
      assert InGrid(h1, u);
    }
  }

  /** Each hole attempt opens at most one cell, so the pass removes at most as many walls
      as there are attempts. */
  lemma {:induction false} PunchedWallCount(g: Layout, n: int, picks: seq<Tile>)
    ensures |Walls(g) - Walls(Punched(g, n, picks))| <= |picks|
    decreases |picks|
  {
    if picks != [] {
      var front, t := picks[..|picks| - 1], picks[|picks| - 1];
      PunchedWallCount(g, n, front);
      var h := Punched(g, n, front);
      var h1 := Punch(h, n, t);
      assert Punched(g, n, picks) == h1;
      PunchRemovesAtMostOne(h, n, t);
      assert Walls(g) - Walls(h1) <= (Walls(g) - Walls(h)) + {t};
      SubsetCard(Walls(g) - Walls(h1), (Walls(g) - Walls(h)) + {t});
    }
  }

  lemma SubsetCard<T>(a: set<T>, b: set<T>)
    requires a <= b
    ensures |a| <= |b|
  {
    assert b == a + (b - a);
  }

  /** `for (i < holeCount)`: one hole attempt per pick, in order. */
  method PunchHoles(maze: array2<int>, picks: seq<Tile>)
    requires maze.Length0 == maze.Length1
    requires forall i :: 0 <= i < |picks| ==> InBounds(maze.Length0, picks[i])
    modifies maze
    ensures Cells(maze) == Punched(old(Cells(maze)), maze.Length0, picks)
  {
    var n := maze.Length0;
    var i := 0;
    while i < |picks|
      invariant 0 <= i <= |picks|
      invariant Cells(maze) == Punched(old(Cells(maze)), n, picks[..i])
    {
      var x, z := picks[i].x, picks[i].z;
      CellsAre(maze);
      assert picks[..i + 1][..i] == picks[..i];
      if maze[z, x] == 1 && x > 1 && x < n - 2 && z > 1 && z < n - 2 {
        OpenCell(maze, x, z);
      }
      i := i + 1;
    }
    assert picks[..i] == picks;
  }

  // ---------------------------------------------------------------------------------
  // Wall boxes

  /** The collision box of the wall on tile `t`: centred at the tile's world position at
      height 1, with the given extent. */
  function WallBox(t: Tile, wallSize: real, offsetX: real, offsetZ: real, extent: Vec3): Box
  {
    FromCenterAndSize(Vec3(TileCenter(t.x, wallSize, offsetX), 1.0, TileCenter(t.z, wallSize, offsetZ)), extent)
  }

  /** The wall boxes of the tiles `ts`, in the same order. */
  function BoxesOver(ts: seq<Tile>, wallSize: real, offsetX: real, offsetZ: real, extent: Vec3): seq<Box>
    decreases |ts|
  {
    if ts == [] then []
    else BoxesOver(ts[..|ts| - 1], wallSize, offsetX, offsetZ, extent) + [WallBox(ts[|ts| - 1], wallSize, offsetX, offsetZ, extent)]
  }

  lemma {:induction false} BoxesOverIndex(ts: seq<Tile>, wallSize: real, offsetX: real, offsetZ: real, extent: Vec3)
    ensures |BoxesOver(ts, wallSize, offsetX, offsetZ, extent)| == |ts|
    ensures forall i :: 0 <= i < |ts| ==>
              BoxesOver(ts, wallSize, offsetX, offsetZ, extent)[i] == WallBox(ts[i], wallSize, offsetX, offsetZ, extent)
    decreases |ts|
  {
    if ts != [] {
      BoxesOverIndex(ts[..|ts| - 1], wallSize, offsetX, offsetZ, extent);
    }
  }

  /** A list without repeats has as many elements as its set. */
  lemma {:induction false} DistinctCard(ts: seq<Tile>)
    requires forall i, j :: 0 <= i < j < |ts| ==> ts[i] != ts[j]
    ensures |set t | t in ts| == |ts|
    decreases |ts|
  {
    if ts != [] {
      var front := ts[..|ts| - 1];
      DistinctCard(front);
      assert (set t | t in ts) == (set t | t in front) + {ts[|ts| - 1]};
      assert ts[|ts| - 1] !in (set t | t in front);
    }
  }

  /** One box per wall cell: the boxes follow the wall cells in row-major order, each
      centred on its tile, and there are exactly as many boxes as walls. */
  lemma WallBoxesPerWall(g: Layout, wallSize: real, offsetX: real, offsetZ: real, extent: Vec3)
    requires Binary(g)
    ensures |BoxesOver(TilesWith(g, 1), wallSize, offsetX, offsetZ, extent)| == |TilesWith(g, 1)| == |Walls(g)|
    ensures forall i :: 0 <= i < |TilesWith(g, 1)| ==>
              IsWall(g, TilesWith(g, 1)[i]) &&
              BoxesOver(TilesWith(g, 1), wallSize, offsetX, offsetZ, extent)[i]
                == WallBox(TilesWith(g, 1)[i], wallSize, offsetX, offsetZ, extent)
    ensures forall t :: IsWall(g, t) ==> t in TilesWith(g, 1)
    ensures RowMajor(TilesWith(g, 1))
  {
    var ts := TilesWith(g, 1);
    TilesWithExactly(g, 1);
    BoxesOverIndex(ts, wallSize, offsetX, offsetZ, extent);
    DistinctCard(ts);
    WallsMembers(g);
    assert (set t | t in ts) == Walls(g);
  }

  /** Scanning one more cell of row `z` adds its box when it is a wall. */
  lemma BoxesStep(g: Layout, z: int, x: int, wallSize: real, offsetX: real, offsetZ: real, extent: Vec3)
    requires 0 <= z < |g| && 0 <= x < |g[z]|
    ensures BoxesOver(TilesBefore(g, 1, z) + RowTiles(g, 1, z, x + 1), wallSize, offsetX, offsetZ, extent)
         == BoxesOver(TilesBefore(g, 1, z) + RowTiles(g, 1, z, x), wallSize, offsetX, offsetZ, extent)
            + (if g[z][x] == 1 then [WallBox(Tile(x, z), wallSize, offsetX, offsetZ, extent)] else [])
  {
    var before := TilesBefore(g, 1, z) + RowTiles(g, 1, z, x);
    if g[z][x] == 1 {
      assert TilesBefore(g, 1, z) + RowTiles(g, 1, z, x + 1) == before + [Tile(x, z)];
      assert (before + [Tile(x, z)])[..|before|] == before;
    } else {
      assert TilesBefore(g, 1, z) + RowTiles(g, 1, z, x + 1) == before;
    }
  }

  /** The nested `forEach` over rows and cells pushing one box per cell equal to 1. */
  method CollectWallBoxes(maze: array2<int>, wallSize: real, offsetX: real, offsetZ: real, extent: Vec3)
    returns (boxes: seq<Box>)
    ensures boxes == BoxesOver(TilesWith(Cells(maze), 1), wallSize, offsetX, offsetZ, extent)
  {
    boxes := [];
    var z := 0;
    while z < maze.Length0
      invariant 0 <= z <= maze.Length0 == |Cells(maze)|
      invariant boxes == BoxesOver(TilesBefore(Cells(maze), 1, z), wallSize, offsetX, offsetZ, extent)
    {
      boxes := CollectRowBoxes(maze, z, wallSize, offsetX, offsetZ, extent, boxes);
      z := z + 1;
    }
  }

  /** The inner `forEach` over the cells of row `z`, appending to the boxes of the rows
      above. */
  method CollectRowBoxes(maze: array2<int>, z: int, wallSize: real, offsetX: real, offsetZ: real, extent: Vec3,
                         above: seq<Box>)
    returns (boxes: seq<Box>)
    requires 0 <= z < maze.Length0
    requires above == BoxesOver(TilesBefore(Cells(maze), 1, z), wallSize, offsetX, offsetZ, extent)
    ensures boxes == BoxesOver(TilesBefore(Cells(maze), 1, z + 1), wallSize, offsetX, offsetZ, extent)
  {
    ghost var g := Cells(maze);
    boxes := above;
    var x := 0;
    assert TilesBefore(g, 1, z) + RowTiles(g, 1, z, 0) == TilesBefore(g, 1, z);
    while x < maze.Length1
      invariant 0 <= x <= maze.Length1 == |g[z]|
      invariant boxes == BoxesOver(TilesBefore(g, 1, z) + RowTiles(g, 1, z, x), wallSize, offsetX, offsetZ, extent)
    {
      CellAt(maze, z, x);
      BoxesStep(g, z, x, wallSize, offsetX, offsetZ, extent);
      if maze[z, x] == 1 {
        boxes := boxes + [WallBox(Tile(x, z), wallSize, offsetX, offsetZ, extent)];
      }
      x := x + 1;
    }
  }

  // ---------------------------------------------------------------------------------
  // generateMaze

  /** The extent of the box `Box3.setFromObject` takes around a wall mesh of js/maze.js:
      the wallSize x 4 x wallSize block plus the LED strips attached to its four sides,
      which stand 0.01 off each face and are 0.05 deep, so the box reaches
      0.01 + 0.025 beyond each vertical face. */
  function MazeWallExtent(wallSize: real): Vec3
  {
    Vec3(wallSize + 0.07, 4.0, wallSize + 0.07)
  }

  predicate IsWall(g: Layout, t: Tile)
  {
    InGrid(g, t) && g[t.z][t.x] == 1
  }

  /** What the hole pass leaves of a carved grid: still square and 0/1 with (1,1) open,
      no cell closed, at most `|picks|` cells opened, each a picked interior cell, and
      the border untouched. */
  lemma HolePass(carved: Layout, size: int, picks: seq<Tile>)
    requires CarveInv(carved, size) && IsOpen(carved, Start)
    ensures IsSquare(Punched(carved, size, picks), size) && Binary(Punched(carved, size, picks))
    ensures IsOpen(Punched(carved, size, picks), Start)
    ensures NeverCloses(carved, Punched(carved, size, picks))
    ensures forall t :: IsOpen(Punched(carved, size, picks), t) && !IsOpen(carved, t) ==>
              t in picks && 1 < t.x < size - 2 && 1 < t.z < size - 2
    ensures |Walls(carved) - Walls(Punched(carved, size, picks))| <= |picks|
    ensures forall t :: InBounds(size, t) && OnBorder(size, t) ==> IsWall(Punched(carved, size, picks), t)
  {
    var layout := Punched(carved, size, picks);
    PunchedKeepsShape(carved, size, picks);
    PunchedOpensPicked(carved, size, picks);
    PunchedWallCount(carved, size, picks);
    forall t | InBounds(size, t) && OnBorder(size, t) ensures IsWall(layout, t) {
      CarvedAvoidsBorder(carved, size, t);
      assert InGrid(layout, t);
    }
  }

  /** `generateMaze(scene, size, wallSize)` of js/maze.js. `shuffle` gives each cell's
      direction order and `picks` the random cell of each hole attempt; `carved` is the
      grid as it stands between carving and the hole pass. */
  method GenerateMaze(size: int, wallSize: real, shuffle: Tile -> seq<Dir>, picks: seq<Tile>)
    returns (layout: Layout, offsetX: real, offsetZ: real, wallBoxes: seq<Box>, ghost carved: Layout)
    requires size >= 2
    requires forall t :: IsShuffle(shuffle(t))
    requires |picks| == HoleCount(size) && forall i :: 0 <= i < |picks| ==> InBounds(size, picks[i])
    ensures IsSquare(layout, size) && Binary(layout) && IsOpen(layout, Start)
    ensures CarveInv(carved, size) && SpanningTree(carved)
    ensures forall t :: InBounds(size, t) && OddOdd(t) ==> IsOpen(carved, t)
    ensures layout == Punched(carved, size, picks)
    ensures NeverCloses(carved, layout)
    ensures forall t :: IsOpen(layout, t) && !IsOpen(carved, t) ==>
              t in picks && 1 < t.x < size - 2 && 1 < t.z < size - 2
    ensures |Walls(carved) - Walls(layout)| <= HoleCount(size)
    ensures forall t :: InBounds(size, t) && OnBorder(size, t) ==> IsWall(layout, t)
    ensures offsetX == Offset(size, wallSize) && offsetZ == Offset(size, wallSize)
    ensures wallBoxes == BoxesOver(TilesWith(layout, 1), wallSize, offsetX, offsetZ, MazeWallExtent(wallSize))
  {
    var maze := CarveFromStart(size, shuffle);
    carved := Cells(maze);
    PunchHoles(maze, picks);
    layout := Cells(maze);
    HolePass(carved, size, picks);
    offsetX := -(size as real) * wallSize / 2.0 + wallSize / 2.0;
    offsetZ := -(size as real) * wallSize / 2.0 + wallSize / 2.0;
    wallBoxes := CollectWallBoxes(maze, wallSize, offsetX, offsetZ, MazeWallExtent(wallSize));
  }
}
