/** Board geometry of unit.py: the moves, the attack zones and the movable-cell sets, as pure
    functions of the position, the terrain map and the board size `n`. */
module Geometry {
  import opened Terrain

  /** A board cell `(x, y)`; the terrain of cell `(x, y)` is `grid[y][x]`. */
  type Cell = (int, int)

  function Abs(a: int): nat { if a < 0 then -a else a }

  function Max(a: int, b: int): int { if a < b then b else a }

  predicate InBounds(n: int, i: int, j: int) { 0 <= i < n && 0 <= j < n }

  function Manhattan(x: int, y: int, i: int, j: int): nat { Abs(i - x) + Abs(j - y) }

  function Chebyshev(x: int, y: int, i: int, j: int): nat { Max(Abs(i - x), Abs(j - y)) }

  /** In bounds and not `mur`, `arbre` or `mer`. */
  predicate Free(grid: Grid, n: int, i: int, j: int)
    requires IsSquare(grid, n)
  {
    InBounds(n, i, j) && !Blocks(grid[j][i])
  }

  /** In bounds and not `mur` or `arbre`: the wizard's notion of a free cell. */
  predicate FreeForWizard(grid: Grid, n: int, i: int, j: int)
    requires IsSquare(grid, n)
  {
    InBounds(n, i, j) && !BlocksWizard(grid[j][i])
  }

  // ---------------------------------------------------------------------------------------------
  // Moves

  /** Position and health: the part of a unit a move can change. */
  datatype Body = Body(x: int, y: int, health: real)

  /** `Bomber.move`: one step by `(dx, dy)` onto a free cell, or no move at all. */
  function Step(grid: Grid, n: int, x: int, y: int, dx: int, dy: int): Cell
    requires IsSquare(grid, n)
  {
    if Free(grid, n, x + dx, y + dy) then (x + dx, y + dy) else (x, y)
  }

  /** `Unit.move`: the same step, and landing on a `healing_zone` while `health < max_health`
      adds exactly one point. */
  function HealingStep(grid: Grid, n: int, b: Body, maxHealth: real, dx: int, dy: int): Body
    requires IsSquare(grid, n)
  {
    var (x, y) := (b.x + dx, b.y + dy);
    if Free(grid, n, x, y) then
      Body(x, y, if grid[y][x] == HealingZone && b.health < maxHealth then b.health + 1.0 else b.health)
    else b
  }

  /** `Wizard.move`: one step, where water does not stop the wizard. */
  function WaterStep(grid: Grid, n: int, x: int, y: int, dx: int, dy: int): Cell
    requires IsSquare(grid, n)
  {
    if FreeForWizard(grid, n, x + dx, y + dy) then (x + dx, y + dy) else (x, y)
  }

  /** `Archer.move` and `Invincible.move`: try the intermediate cell `(x+dx, y+dy)`; if it is free,
      go on to the far cell `(x+2dx, y+2dy)` when that is free too, else stop on the intermediate. */
  function Leap(grid: Grid, n: int, x: int, y: int, dx: int, dy: int): Cell
    requires IsSquare(grid, n)
  {
    if Free(grid, n, x + dx, y + dy) then
      if Free(grid, n, x + dx * 2, y + dy * 2) then (x + dx * 2, y + dy * 2) else (x + dx, y + dy)
    else (x, y)
  }

  /** A single step changes the position by exactly `(dx, dy)` onto a free cell, or not at all;
      nothing but the terrain and the bounds can stop it. */
  lemma {:induction false} StepIsAtomic(grid: Grid, n: int, x: int, y: int, dx: int, dy: int)
    requires IsSquare(grid, n)
    ensures Free(grid, n, x + dx, y + dy) ==> Step(grid, n, x, y, dx, dy) == (x + dx, y + dy)
    ensures !Free(grid, n, x + dx, y + dy) ==> Step(grid, n, x, y, dx, dy) == (x, y)
  {
  }

  /** The healing step moves like `Step`, and gains exactly one point exactly when it lands on a
      healing zone below full health. */
  lemma {:induction false} HealingStepGain(grid: Grid, n: int, b: Body, maxHealth: real, dx: int, dy: int)
    requires IsSquare(grid, n)
    ensures var r := HealingStep(grid, n, b, maxHealth, dx, dy);
      && (r.x, r.y) == Step(grid, n, b.x, b.y, dx, dy)
      && (r.health == b.health + 1.0 <==>
            Free(grid, n, b.x + dx, b.y + dy) && grid[b.y + dy][b.x + dx] == HealingZone && b.health < maxHealth)
      && (r.health == b.health || r.health == b.health + 1.0)
  {
  }

  /** Whole-point health never rises above the maximum by the healing step; half-point health,
      left by the 7.5-point bomb, can (`Rules.HealingOvershootInGame`). */
  lemma {:induction false} HealingStepKeepsWholeHealthBelowMax(grid: Grid, n: int, b: Body, maxHealth: int, dx: int, dy: int)
    requires IsSquare(grid, n)
    requires b.health == b.health.Floor as real && b.health <= maxHealth as real
    ensures HealingStep(grid, n, b, maxHealth as real, dx, dy).health <= maxHealth as real
  {
    var k := b.health.Floor;
    if b.health < maxHealth as real {
      assert k < maxHealth;
      assert b.health + 1.0 == (k + 1) as real;
    }
  }

  /** The wizard's step enters water, never a wall or a tree, and never heals. */
  lemma {:induction false} WaterStepEntersWater(grid: Grid, n: int, x: int, y: int, dx: int, dy: int)
    requires IsSquare(grid, n)
    ensures var c := WaterStep(grid, n, x, y, dx, dy);
      && (c == (x + dx, y + dy) || c == (x, y))
      && (InBounds(n, x + dx, y + dy) && grid[y + dy][x + dx] == Mer ==> c == (x + dx, y + dy))
      && (c != (x, y) ==> !BlocksWizard(grid[c.1][c.0]))
  {
  }

  /** The three outcomes of a leap, and no fourth one. */
  lemma {:induction false} LeapOutcomes(grid: Grid, n: int, x: int, y: int, dx: int, dy: int)
    requires IsSquare(grid, n)
    ensures var c := Leap(grid, n, x, y, dx, dy);
      && (!Free(grid, n, x + dx, y + dy) ==> c == (x, y))
      && (Free(grid, n, x + dx, y + dy) && Free(grid, n, x + 2 * dx, y + 2 * dy) ==> c == (x + 2 * dx, y + 2 * dy))
      && (Free(grid, n, x + dx, y + dy) && !Free(grid, n, x + 2 * dx, y + 2 * dy) ==> c == (x + dx, y + dy))
      && (c == (x, y) || c == (x + dx, y + dy) || c == (x + 2 * dx, y + 2 * dy))
  {
  }

  // ---------------------------------------------------------------------------------------------
  // Movable cells and attack zones

  /** The base `get_movable_cells`: every in-bounds cell within Manhattan distance `speed` whose
      terrain is not an obstacle. A filter of the diamond, blind to paths. */
  function DiamondMovable(grid: Grid, n: int, x: int, y: int, speed: int): set<Cell>
    requires IsSquare(grid, n)
  {
    set i, j | 0 <= i < n && 0 <= j < n && Manhattan(x, y, i, j) <= speed && !Blocks(grid[j][i]) :: (i, j)
  }

  /** Cells straight up, down, left or right at distance `lo` to `hi`: the cardinal rays. */
  predicate OnRay(x: int, y: int, lo: int, hi: int, i: int, j: int) {
    (i == x && lo <= Abs(j - y) <= hi) || (j == y && lo <= Abs(i - x) <= hi)
  }

  /** The cardinal-ray zone: from distance 1 for the swordsman, from distance 2 for the archer. */
  function RayZone(n: int, x: int, y: int, lo: int, hi: int): set<Cell> {
    set i, j | 0 <= i < n && 0 <= j < n && OnRay(x, y, lo, hi, i, j) :: (i, j)
  }

  /** The wizard's zone: every in-bounds cell within Manhattan distance `r`. */
  function DiamondZone(n: int, x: int, y: int, r: int): set<Cell> {
    set i, j | 0 <= i < n && 0 <= j < n && Manhattan(x, y, i, j) <= r :: (i, j)
  }

  /** The bomber's least distance: `max(1, range // 2)`. */
  function AnnulusInner(r: int): int { Max(1, r / 2) }

  /** The bomber's zone: every in-bounds cell whose Manhattan distance lies between the least
      distance and `r`. */
  function AnnulusZone(n: int, x: int, y: int, r: int): set<Cell> {
    set i, j | 0 <= i < n && 0 <= j < n && AnnulusInner(r) <= Manhattan(x, y, i, j) <= r :: (i, j)
  }

  /** The invincible's 24 hard-coded offsets, in the order the source lists them. */
  const InvincibleOffsets: seq<(int, int)> :=
    [(0, -1), (0, 1), (-1, 0), (-1, -1), (1, 0), (1, -1), (1, 1), (-1, 1),
     (-2, -2), (-2, -1), (-2, 0), (-2, 1), (-2, 2),
     (-1, -2), (-1, 2), (0, -2), (0, 2), (1, -2), (1, 2),
     (2, -2), (2, -1), (2, 0), (2, 1), (2, 2)]

  /** The in-bounds cells at the first `k` offsets of `o`. */
  function OffsetPrefix(o: seq<(int, int)>, n: int, x: int, y: int, k: int): set<Cell>
    requires 0 <= k <= |o|
  {
    set m | 0 <= m < k && InBounds(n, x + o[m].0, y + o[m].1) :: (x + o[m].0, y + o[m].1)
  }

  /** One more offset adds its cell exactly when that cell is on the board. */
  lemma {:induction false} OffsetPrefixStep(o: seq<(int, int)>, n: int, x: int, y: int, k: int)
    requires 0 <= k < |o|
    ensures InBounds(n, x + o[k].0, y + o[k].1) ==>
            OffsetPrefix(o, n, x, y, k + 1) == OffsetPrefix(o, n, x, y, k) + {(x + o[k].0, y + o[k].1)}
    ensures !InBounds(n, x + o[k].0, y + o[k].1) ==> OffsetPrefix(o, n, x, y, k + 1) == OffsetPrefix(o, n, x, y, k)
  {
    var k' := k + 1;
    forall c | c in OffsetPrefix(o, n, x, y, k')
      ensures c in OffsetPrefix(o, n, x, y, k) || (InBounds(n, x + o[k].0, y + o[k].1) && c == (x + o[k].0, y + o[k].1))
    {
      var m :| 0 <= m < k' && InBounds(n, x + o[m].0, y + o[m].1) && c == (x + o[m].0, y + o[m].1);
      if m < k {
        assert c in OffsetPrefix(o, n, x, y, k);
      }
    }
  }

  /** The invincible's zone: the in-bounds cells at those offsets (no range involved). */
  function OffsetZone(n: int, x: int, y: int): set<Cell> {
    OffsetPrefix(InvincibleOffsets, n, x, y, |InvincibleOffsets|)
  }

  /** The 24 offsets are exactly the 5 by 5 square around the unit without its centre. */
  lemma {:induction false} OffsetsAreSquareRing(dx: int, dy: int)
    ensures (dx, dy) in InvincibleOffsets <==> 1 <= Max(Abs(dx), Abs(dy)) <= 2
  {
    OffsetsInRing(dx, dy);
    RingInOffsets(dx, dy);
  }

  lemma {:induction false} OffsetsInRing(dx: int, dy: int)
    ensures (dx, dy) in InvincibleOffsets ==> 1 <= Max(Abs(dx), Abs(dy)) <= 2
  {
    var o := InvincibleOffsets;
    forall i | 0 <= i < |o| ensures 1 <= Max(Abs(o[i].0), Abs(o[i].1)) <= 2 {
    }
  }

  lemma {:induction false} RingInOffsets(dx: int, dy: int)
    ensures 1 <= Max(Abs(dx), Abs(dy)) <= 2 ==> (dx, dy) in InvincibleOffsets
  {
    var o := InvincibleOffsets;
    if 1 <= Max(Abs(dx), Abs(dy)) <= 2 {
      assert -2 <= dx <= 2 && -2 <= dy <= 2;
      if dx == -2 {
        assert o[8 + (dy + 2)] == (dx, dy);
      } else if dx == 2 {
        assert o[19 + (dy + 2)] == (dx, dy);
      } else if dy == -2 {
        assert o[[13, 15, 17][dx + 1]] == (dx, dy);
      } else if dy == 2 {
        assert o[[14, 16, 18][dx + 1]] == (dx, dy);
      } else if dx == -1 {
        assert o[[3, 2, 7][dy + 1]] == (dx, dy);
      } else if dx == 0 {
        assert o[[0, 1][if dy == -1 then 0 else 1]] == (dx, dy);
      } else {
        assert o[[5, 4, 6][dy + 1]] == (dx, dy);
      }
    }
  }

  /** Hence the invincible's zone is the in-bounds part of the ring at Chebyshev distance 1 or 2:
      it never contains the unit's own cell. */
  lemma {:induction false} OffsetZoneIsSquareRing(n: int, x: int, y: int, i: int, j: int)
    ensures (i, j) in OffsetZone(n, x, y) <==> InBounds(n, i, j) && 1 <= Chebyshev(x, y, i, j) <= 2
  {
    OffsetsAreSquareRing(i - x, j - y);
    OffsetZoneMember(n, x, y, i, j);
  }

  /** Membership in the offset zone, stated through the offset list. */
  lemma {:induction false} OffsetZoneMember(n: int, x: int, y: int, i: int, j: int)
    ensures (i, j) in OffsetZone(n, x, y) <==> InBounds(n, i, j) && (i - x, j - y) in InvincibleOffsets
  {
    OffsetPrefixMember(InvincibleOffsets, n, x, y, i, j);
  }

  /** A cell is at one of the offsets exactly when it is on the board and its displacement from
      `(x, y)` is in the list. */
  lemma {:induction false} OffsetPrefixMember(o: seq<(int, int)>, n: int, x: int, y: int, i: int, j: int)
    ensures (i, j) in OffsetPrefix(o, n, x, y, |o|) <==> InBounds(n, i, j) && (i - x, j - y) in o
  {
    if InBounds(n, i, j) && (i - x, j - y) in o {
      var k :| 0 <= k < |o| && o[k] == (i - x, j - y);
      assert (x + o[k].0, y + o[k].1) == (i, j);
    }
    if (i, j) in OffsetPrefix(o, n, x, y, |o|) {
      var k :| 0 <= k < |o| && InBounds(n, x + o[k].0, y + o[k].1) && (x + o[k].0, y + o[k].1) == (i, j);
      assert o[k] == (i - x, j - y);
    }
  }

  /** The ray zones: in bounds, on a ray, never the unit's own cell when rays start at 1 or more;
      the archer's Power Arrow (range 2, rays from 2) reaches cardinal distance 2 only. */
  lemma {:induction false} RayZoneShape(n: int, x: int, y: int, lo: int, hi: int, i: int, j: int)
    ensures (i, j) in RayZone(n, x, y, lo, hi) <==> InBounds(n, i, j) && OnRay(x, y, lo, hi, i, j)
    ensures lo >= 1 ==> (x, y) !in RayZone(n, x, y, lo, hi)
    ensures (i, j) in RayZone(n, x, y, 2, 2) ==> Manhattan(x, y, i, j) == 2 && (i == x || j == y)
  {
  }

  /** The bomber's zone never holds its own cell nor any cell nearer than `max(1, range // 2)`:
      with range 6 nothing within distance 2 is hit. */
  lemma {:induction false} AnnulusExcludesNear(n: int, x: int, y: int, r: int, i: int, j: int)
    ensures (i, j) in AnnulusZone(n, x, y, r) ==> Manhattan(x, y, i, j) >= AnnulusInner(r) >= 1
    ensures (x, y) !in AnnulusZone(n, x, y, r)
    ensures (i, j) in AnnulusZone(n, x, y, 6) ==> 3 <= Manhattan(x, y, i, j) <= 6
  {
  }

  /** The wizard's zone holds its own cell whenever that cell is on the board. */
  lemma {:induction false} DiamondZoneHoldsCentre(n: int, x: int, y: int, r: int)
    requires InBounds(n, x, y) && r >= 0
    ensures (x, y) in DiamondZone(n, x, y, r)
  {
  }

  /** The base movable set holds the current cell when it is free, never holds an obstacle, and
      `Free` holds of every cell in it -- water included, even for the wizard. */
  lemma {:induction false} DiamondMovableShape(grid: Grid, n: int, x: int, y: int, s: int, i: int, j: int)
    requires IsSquare(grid, n)
    ensures (i, j) in DiamondMovable(grid, n, x, y, s) <==> Free(grid, n, i, j) && Manhattan(x, y, i, j) <= s
    ensures Free(grid, n, x, y) && s >= 0 ==> (x, y) in DiamondMovable(grid, n, x, y, s)
  {
  }

  // ---------------------------------------------------------------------------------------------
  // The leap search of Archer/Invincible.get_movable_cells

  /** The four two-cell displacements, in the order the source tries them. */
  const LeapDirections: seq<(int, int)> := [(0, -2), (0, 2), (-2, 0), (2, 0)]

  /** What one displacement adds from cell `c`: the intermediate cell when it is free, and then
      the far cell too when that is free. */
  function LeapSucc(grid: Grid, n: int, c: Cell, d: int): set<Cell>
    requires IsSquare(grid, n) && 0 <= d < 4
  {
    LeapStep(grid, n, c, LeapDirections[d].0, LeapDirections[d].1)
  }

  function LeapStep(grid: Grid, n: int, c: Cell, dx: int, dy: int): set<Cell>
    requires IsSquare(grid, n)
  {
    var mid := (c.0 + dx / 2, c.1 + dy / 2);
    var far := (c.0 + dx, c.1 + dy);
    if Free(grid, n, mid.0, mid.1) then {mid} + (if Free(grid, n, far.0, far.1) then {far} else {}) else {}
  }

  /** What the first `d` displacements add from `c`. */
  function SuccUpTo(grid: Grid, n: int, c: Cell, d: int): set<Cell>
    requires IsSquare(grid, n) && 0 <= d <= 4
  {
    if d == 0 then {} else SuccUpTo(grid, n, c, d - 1) + LeapSucc(grid, n, c, d - 1)
  }

  function Successors(grid: Grid, n: int, c: Cell): set<Cell>
    requires IsSquare(grid, n)
  {
    SuccUpTo(grid, n, c, 4)
  }

  /** One round: every cell some cell of `s` adds. */
  function Expand(grid: Grid, n: int, s: set<Cell>): set<Cell>
    requires IsSquare(grid, n)
  {
    set c, e | c in s && e in Successors(grid, n, c) :: e
  }

  /** Expanding one more cell adds exactly that cell's successors. */
  lemma {:induction false} ExpandAddOne(grid: Grid, n: int, s: set<Cell>, c: Cell)
    requires IsSquare(grid, n)
    ensures Expand(grid, n, s + {c}) == Expand(grid, n, s) + Successors(grid, n, c)
  {
    forall e | e in Expand(grid, n, s + {c}) ensures e in Expand(grid, n, s) + Successors(grid, n, c) {
      var c' :| c' in s + {c} && e in Successors(grid, n, c');
      if c' != c {
        assert c' in s;
      }
    }
  }

  /** `k` rounds of the search from `s`: each round adds what the current set expands to. */
  function LeapReach(grid: Grid, n: int, s: set<Cell>, k: nat): set<Cell>
    requires IsSquare(grid, n)
  {
    if k == 0 then s
    else
      var r := LeapReach(grid, n, s, k - 1);
      r + Expand(grid, n, r)
  }

  /** `e` is one step of the search away from `c`: a free cardinal neighbour, or the free cell two
      cells away in a cardinal direction whose intermediate cell is free too. */
  predicate LeapNeighbour(grid: Grid, n: int, c: Cell, e: Cell)
    requires IsSquare(grid, n)
  {
    && Free(grid, n, e.0, e.1)
    && (e.0 == c.0 || e.1 == c.1)
    && (Manhattan(c.0, c.1, e.0, e.1) == 1 ||
        (Manhattan(c.0, c.1, e.0, e.1) == 2 && Free(grid, n, (c.0 + e.0) / 2, (c.1 + e.1) / 2)))
  }

  /** One more displacement adds what it adds from `c`. */
  lemma {:induction false} SuccUpToStep(grid: Grid, n: int, c: Cell, d: int)
    requires IsSquare(grid, n) && 0 <= d < 4
    ensures SuccUpTo(grid, n, c, d + 1) == SuccUpTo(grid, n, c, d) + LeapSucc(grid, n, c, d)
  {
  }

  /** Each displacement adds only leap neighbours of `c`. */
  lemma {:induction false} LeapSuccIsNeighbour(grid: Grid, n: int, c: Cell, d: int, e: Cell)
    requires IsSquare(grid, n) && 0 <= d < 4
    ensures e in LeapSucc(grid, n, c, d) ==> LeapNeighbour(grid, n, c, e)
  {
    var (dx, dy) := LeapDirections[d];
    assert (dx, dy) in LeapDirections;
    LeapStepIsNeighbour(grid, n, c, dx, dy, e);
  }

  /** Each cell one displacement adds is a neighbour in the sense of the search. */
  lemma {:induction false} LeapStepIsNeighbour(grid: Grid, n: int, c: Cell, dx: int, dy: int, e: Cell)
    requires IsSquare(grid, n) && (dx, dy) in LeapDirections
    ensures e in LeapStep(grid, n, c, dx, dy) ==> LeapNeighbour(grid, n, c, e)
  {
    if e in LeapStep(grid, n, c, dx, dy) {
      if e == (c.0 + dx / 2, c.1 + dy / 2) {
        MidIsNeighbour(grid, n, c, dx, dy);
      } else {
        FarIsNeighbour(grid, n, c, dx, dy);
      }
    }
  }

  /** The intermediate cell of a displacement, when free, is a cardinal neighbour. */
  lemma {:induction false} MidIsNeighbour(grid: Grid, n: int, c: Cell, dx: int, dy: int)
    requires IsSquare(grid, n) && (dx, dy) in LeapDirections
    requires Free(grid, n, c.0 + dx / 2, c.1 + dy / 2)
    ensures LeapNeighbour(grid, n, c, (c.0 + dx / 2, c.1 + dy / 2))
  {
    assert (dx == 0 && (dy == -2 || dy == 2)) || (dy == 0 && (dx == -2 || dx == 2));
  }

  /** The far cell of a displacement, when it and the intermediate cell are free, is a jump
      over that free cell. */
  lemma {:induction false} FarIsNeighbour(grid: Grid, n: int, c: Cell, dx: int, dy: int)
    requires IsSquare(grid, n) && (dx, dy) in LeapDirections
    requires Free(grid, n, c.0 + dx / 2, c.1 + dy / 2) && Free(grid, n, c.0 + dx, c.1 + dy)
    ensures LeapNeighbour(grid, n, c, (c.0 + dx, c.1 + dy))
  {
    assert (dx == 0 && (dy == -2 || dy == 2)) || (dy == 0 && (dx == -2 || dx == 2));
    assert (c.0 + (c.0 + dx)) / 2 == c.0 + dx / 2 && (c.1 + (c.1 + dy)) / 2 == c.1 + dy / 2;
  }

  lemma {:induction false} SuccUpToIsNeighbour(grid: Grid, n: int, c: Cell, d: int, e: Cell)
    requires IsSquare(grid, n) && 0 <= d <= 4
    ensures e in SuccUpTo(grid, n, c, d) ==> LeapNeighbour(grid, n, c, e)
  {
    if d > 0 {
      SuccUpToIsNeighbour(grid, n, c, d - 1, e);
      SuccUpToStep(grid, n, c, d - 1);
      LeapSuccIsNeighbour(grid, n, c, d - 1, e);
    }
  }

  /** The cells one search step adds from `c` are exactly its leap neighbours: a far cell is added
      only when its intermediate cell is free, and every such pair is added. */
  lemma {:induction false} SuccessorsAreNeighbours(grid: Grid, n: int, c: Cell, e: Cell)
    requires IsSquare(grid, n)
    ensures e in Successors(grid, n, c) <==> LeapNeighbour(grid, n, c, e)
  {
    SuccUpToIsNeighbour(grid, n, c, 4, e);
    if LeapNeighbour(grid, n, c, e) {
      NeighbourInLeapSucc(grid, n, c, e);
      SuccUpToStep(grid, n, c, Heading(c, e));
      SuccUpToGrows(grid, n, c, Heading(c, e) + 1, 4);
    }
  }

  /** The index in `LeapDirections` of the direction from `c` to a cell in its row or column. */
  function Heading(c: Cell, e: Cell): (d: int)
    ensures 0 <= d < 4
  {
    if e.0 == c.0 then (if e.1 < c.1 then 0 else 1) else (if e.0 < c.0 then 2 else 3)
  }

  lemma {:induction false} NeighbourInLeapSucc(grid: Grid, n: int, c: Cell, e: Cell)
    requires IsSquare(grid, n) && LeapNeighbour(grid, n, c, e)
    ensures e in LeapSucc(grid, n, c, Heading(c, e))
  {
    var d := Heading(c, e);
    var (dx, dy) := LeapDirections[d];
    assert (dx, dy) == [(0, -2), (0, 2), (-2, 0), (2, 0)][d];
    if Manhattan(c.0, c.1, e.0, e.1) == 2 {
      assert (c.0 + e.0) / 2 == c.0 + dx / 2 && (c.1 + e.1) / 2 == c.1 + dy / 2;
    }
  }

  lemma {:induction false} SuccUpToGrows(grid: Grid, n: int, c: Cell, d: int, d': int)
    requires IsSquare(grid, n) && 0 <= d <= d' <= 4
    ensures SuccUpTo(grid, n, c, d) <= SuccUpTo(grid, n, c, d')
    decreases d' - d
  {
    if d < d' {
      SuccUpToGrows(grid, n, c, d, d' - 1);
    }
  }

  /** The search never loses a cell: the start cells stay, and so does every earlier round. */
  lemma {:induction false} LeapReachGrows(grid: Grid, n: int, s: set<Cell>, k: nat)
    requires IsSquare(grid, n)
    ensures s <= LeapReach(grid, n, s, k)
  {
    if k > 0 {
      LeapReachGrows(grid, n, s, k - 1);
    }
  }

  /** Every cell the search adds is in bounds and free. */
  lemma {:induction false} LeapReachFree(grid: Grid, n: int, s: set<Cell>, k: nat, e: Cell)
    requires IsSquare(grid, n)
    ensures e in LeapReach(grid, n, s, k) ==> e in s || Free(grid, n, e.0, e.1)
  {
    if k > 0 && e in LeapReach(grid, n, s, k) {
      var r := LeapReach(grid, n, s, k - 1);
      if e in r {
        LeapReachFree(grid, n, s, k - 1, e);
      } else {
        var c :| c in r && e in Successors(grid, n, c);
        SuccessorsAreNeighbours(grid, n, c, e);
      }
    }
  }

  /** After `k` rounds from one cell, every cell is within Manhattan distance `2k` of it, so the
      three hard-coded rounds stay within distance 6. */
  lemma {:induction false} LeapReachWithin(grid: Grid, n: int, x: int, y: int, k: nat, e: Cell)
    requires IsSquare(grid, n)
    ensures e in LeapReach(grid, n, {(x, y)}, k) ==> Manhattan(x, y, e.0, e.1) <= 2 * k
  {
    if k > 0 && e in LeapReach(grid, n, {(x, y)}, k) {
      var r := LeapReach(grid, n, {(x, y)}, k - 1);
      if e in r {
        LeapReachWithin(grid, n, x, y, k - 1, e);
      } else {
        var c :| c in r && e in Successors(grid, n, c);
        LeapReachWithin(grid, n, x, y, k - 1, c);
        SuccessorWithinTwo(grid, n, x, y, c, e);
      }
    }
  }

  /** One step of the search moves at most two cells away from any origin. */
  lemma {:induction false} SuccessorWithinTwo(grid: Grid, n: int, x: int, y: int, c: Cell, e: Cell)
    requires IsSquare(grid, n) && e in Successors(grid, n, c)
    ensures Manhattan(x, y, e.0, e.1) <= Manhattan(x, y, c.0, c.1) + 2
  {
    SuccessorsAreNeighbours(grid, n, c, e);
  }

  /** The move and the search agree: whatever a single leap in a cardinal direction lands on is
      among the cells the first round of the search offers. */
  lemma {:induction false} LeapLandsInReach(grid: Grid, n: int, x: int, y: int, dx: int, dy: int)
    requires IsSquare(grid, n)
    requires (dx, dy) in [(0, -1), (0, 1), (-1, 0), (1, 0)]
    ensures Leap(grid, n, x, y, dx, dy) in LeapReach(grid, n, {(x, y)}, 1)
  {
    var c := Leap(grid, n, x, y, dx, dy);
    assert LeapReach(grid, n, {(x, y)}, 0) == {(x, y)};
    if c != (x, y) {
      SuccessorsAreNeighbours(grid, n, (x, y), c);
      assert c in Expand(grid, n, {(x, y)});
    }
  }
}
