/** The five unit variants of unit.py: their stats and attack profiles, and the `Unit` class whose
    moves, attack and heal update its fields in place and whose cell queries build their sets in
    nested loops. */
module Units {
  import opened Terrain
  import opened Geometry

  datatype Variant = Archer | Swordsman | Wizard | Invincible | Bomber

  /** The `team` string: 'player' or 'enemy'. */
  datatype Team = Player | Enemy

  /** One entry of `attack_types`: index 0 is the normal attack, index 1 the special one. */
  datatype AttackProfile = AttackProfile(name: string, power: real, range: int)

  /** The arguments each variant's constructor passes to `Unit.__init__`. */
  datatype Stats = Stats(health: real, power: real, speed: int, range: int)

  function StatsOf(v: Variant): Stats {
    match v
    case Archer => Stats(15.0, 2.0, 3, 3)
    case Swordsman => Stats(10.0, 3.0, 3, 1)
    case Wizard => Stats(12.0, 4.0, 3, 2)
    case Invincible => Stats(40.0, 4.0, 3, 1)
    case Bomber => Stats(15.0, 5.0, 3, 3)
  }

  /** The `attack_types` each constructor installs, written with the source's own formulas. */
  function ProfilesOf(v: Variant): seq<AttackProfile> {
    var s := StatsOf(v);
    match v
    case Archer => [AttackProfile("Arrow Shot", s.power, s.range), AttackProfile("Power Arrow", s.power * 2.0, s.range - 1)]
    case Swordsman => [AttackProfile("Sword Slash", s.power, s.range), AttackProfile("Heavy Strike", s.power * 2.0, s.range)]
    case Wizard => [AttackProfile("Gladio", s.power, s.range), AttackProfile("Incendio", s.power * 2.0, s.range)]
    case Invincible => [AttackProfile("Big Slash", s.power, s.range), AttackProfile("Two Blades Style", s.power * 1.5, s.range * 2)]
    case Bomber => [AttackProfile("Aqua Bomb", s.power, s.range), AttackProfile("Lava bomb", s.power * 1.5, s.range * 2)]
  }

  /** The numbers the constructors produce: two profiles each, the special one never weaker. */
  lemma {:induction false} ProfileTable(v: Variant)
    ensures |ProfilesOf(v)| == 2
    ensures StatsOf(v).health > 0.0 && StatsOf(v).speed == 3
    ensures ProfilesOf(v)[1].power >= ProfilesOf(v)[0].power > 0.0
    ensures v == Archer ==> ProfilesOf(v)[0].range == 3 && ProfilesOf(v)[1] == AttackProfile("Power Arrow", 4.0, 2)
    ensures v == Invincible ==> ProfilesOf(v)[1].power == 6.0 && ProfilesOf(v)[1].range == 2
    ensures v == Bomber ==> ProfilesOf(v)[1].power == 7.5 && ProfilesOf(v)[1].range == 6
    ensures v == Swordsman ==> ProfilesOf(v)[0].range == ProfilesOf(v)[1].range == 1
  {
  }

  /** Where a variant may stand: the wizard on water too, everyone else on free cells only. */
  predicate Standable(v: Variant, grid: Grid, n: int, i: int, j: int)
    requires IsSquare(grid, n)
  {
    if v == Wizard then FreeForWizard(grid, n, i, j) else Free(grid, n, i, j)
  }

  /** The effect of `move(dx, dy)` for each variant. The swordsman keeps the base `Unit.move`
      with its healing tile; archers and invincibles leap; the wizard crosses water; the bomber
      takes a plain step. Only the base move heals. */
  function MoveResult(v: Variant, grid: Grid, n: int, b: Body, maxHealth: real, dx: int, dy: int): Body
    requires IsSquare(grid, n)
  {
    match v
    case Swordsman => HealingStep(grid, n, b, maxHealth, dx, dy)
    case Archer => var c := Leap(grid, n, b.x, b.y, dx, dy); Body(c.0, c.1, b.health)
    case Invincible => var c := Leap(grid, n, b.x, b.y, dx, dy); Body(c.0, c.1, b.health)
    case Wizard => var c := WaterStep(grid, n, b.x, b.y, dx, dy); Body(c.0, c.1, b.health)
    case Bomber => var c := Step(grid, n, b.x, b.y, dx, dy); Body(c.0, c.1, b.health)
  }

  /** A move keeps a unit on a cell it may stand on, and changes health only for the swordsman,
      by one point at most. */
  lemma {:induction false} MoveKeepsStanding(v: Variant, grid: Grid, n: int, b: Body, maxHealth: real, dx: int, dy: int)
    requires IsSquare(grid, n)
    ensures var r := MoveResult(v, grid, n, b, maxHealth, dx, dy);
      && (Standable(v, grid, n, b.x, b.y) ==> Standable(v, grid, n, r.x, r.y))
      && (v != Swordsman ==> r.health == b.health)
      && (r.health == b.health || r.health == b.health + 1.0)
  {
  }

  /** `attack`: the chosen profile's power when the target is within its range on both axes
      (Chebyshev distance), nothing otherwise. */
  function Damage(ax: int, ay: int, tx: int, ty: int, p: AttackProfile): real {
    if Abs(ax - tx) <= p.range && Abs(ay - ty) <= p.range then p.power else 0.0
  }

  /** Damage is all or nothing, and the range test is the Chebyshev distance: the invincible's
      Big Slash (range 1) does nothing to a target on the outer ring of its own zone. */
  lemma {:induction false} DamageIsChebyshev(ax: int, ay: int, tx: int, ty: int, p: AttackProfile)
    ensures Damage(ax, ay, tx, ty, p) == (if Chebyshev(ax, ay, tx, ty) <= p.range then p.power else 0.0)
    ensures Chebyshev(ax, ay, tx, ty) == 2 ==> Damage(ax, ay, tx, ty, ProfilesOf(Invincible)[0]) == 0.0
  {
  }

  /** `Wizard.heal`: four points, capped at the maximum. */
  function Healed(health: real, maxHealth: real): real {
    if health + 4.0 < maxHealth then health + 4.0 else maxHealth
  }

  lemma {:induction false} HealedBounds(health: real, maxHealth: real)
    requires health <= maxHealth
    ensures health <= Healed(health, maxHealth) <= maxHealth
    ensures Healed(health, maxHealth) - health <= 4.0
    ensures Healed(health, maxHealth) == maxHealth || Healed(health, maxHealth) == health + 4.0
  {
  }

  /** The movable set each variant's `get_movable_cells` computes: three rounds of the leap
      search for archers and invincibles, the diamond filter for everyone else. */
  function MovableCells(v: Variant, grid: Grid, n: int, x: int, y: int, speed: int): set<Cell>
    requires IsSquare(grid, n)
  {
    if v == Archer || v == Invincible then LeapReach(grid, n, {(x, y)}, 3)
    else DiamondMovable(grid, n, x, y, speed)
  }

  /** The zone each variant's `get_attackable_cells` computes for an attack of range `r`. */
  function ZoneOf(v: Variant, n: int, x: int, y: int, r: int): set<Cell> {
    match v
    case Archer => RayZone(n, x, y, 2, r)
    case Swordsman => RayZone(n, x, y, 1, r)
    case Wizard => DiamondZone(n, x, y, r)
    case Invincible => OffsetZone(n, x, y)
    case Bomber => AnnulusZone(n, x, y, r)
  }

  /** No movable set holds an obstacle or an off-board cell (the start cell aside), and every
      zone lies on the board. */
  lemma {:induction false} CellsOnBoard(v: Variant, grid: Grid, n: int, x: int, y: int, speed: int, r: int, c: Cell)
    requires IsSquare(grid, n)
    ensures c in MovableCells(v, grid, n, x, y, speed) ==> c == (x, y) || Free(grid, n, c.0, c.1)
    ensures c in ZoneOf(v, n, x, y, r) ==> InBounds(n, c.0, c.1)
  {
    if v == Archer || v == Invincible {
      LeapReachFree(grid, n, {(x, y)}, 3, c);
    }
    if v == Invincible && c in ZoneOf(v, n, x, y, r) {
      OffsetZoneIsSquareRing(n, x, y, c.0, c.1);
    }
  }

  /** The invincible's zone is the same for both attacks: only the power differs. */
  lemma {:induction false} InvincibleZoneIgnoresIndex(n: int, x: int, y: int)
    ensures ZoneOf(Invincible, n, x, y, ProfilesOf(Invincible)[0].range) == ZoneOf(Invincible, n, x, y, ProfilesOf(Invincible)[1].range)
    ensures ProfilesOf(Invincible)[0].power != ProfilesOf(Invincible)[1].power
  {
  }

  /** The cardinal direction of a cell on a ray, in the order the loops try them
      (up, down, left, right). */
  function RayDir(x: int, y: int, i: int, j: int): int {
    if i == x && j < y then 0 else if i == x && j > y then 1 else if i < x then 2 else 3
  }

  const RayDirections: seq<(int, int)> := [(0, -1), (0, 1), (-1, 0), (1, 0)]

  /** The cell `step` cells away from `(x, y)` in direction `d`, as the ray loops compute it. */
  function RayCell(x: int, y: int, d: int, step: int): Cell
    requires 0 <= d < 4
  {
    (x + RayDirections[d].0 * step, y + RayDirections[d].1 * step)
  }

  /** On the rays from `lo >= 1`, a direction and a distance name exactly one cell. */
  lemma {:induction false} RayCellIsUnique(x: int, y: int, lo: int, r: int, d: int, step: int, i: int, j: int)
    requires 0 <= d < 4 && 1 <= lo <= step <= r
    ensures OnRay(x, y, lo, r, i, j) && RayDir(x, y, i, j) == d && Manhattan(x, y, i, j) == step
            <==> (i, j) == RayCell(x, y, d, step)
  {
    if d == 0 {
      assert RayCell(x, y, d, step) == (x, y - step);
    } else if d == 1 {
      assert RayCell(x, y, d, step) == (x, y + step);
    } else if d == 2 {
      assert RayCell(x, y, d, step) == (x - step, y);
    } else {
      assert RayCell(x, y, d, step) == (x + step, y);
    }
  }

  /** One displacement of the leap search, with the displacement read off the direction list. */
  lemma {:induction false} LeapSuccAt(grid: Grid, n: int, c: Cell, d: int, dx: int, dy: int)
    requires IsSquare(grid, n) && 0 <= d < 4 && (dx, dy) == LeapDirections[d]
    ensures LeapSucc(grid, n, c, d) == LeapStep(grid, n, c, dx, dy)
  {
  }

  lemma {:induction false} UnionStep<T>(acc: set<T>, s: set<T>, t: set<T>, before: set<T>, after: set<T>)
    requires before == acc + s && after == before + t
    ensures after == acc + (s + t)
  {
  }

  /** The body of the leap search's loop over the displacements for one displacement `(dx, dy)`
      from `c`: the intermediate cell when it is free, and then the far cell too when that is
      free. */
  method AddLeap(grid: Grid, n: int, c: Cell, dx: int, dy: int, cells: set<Cell>) returns (cells': set<Cell>)
    requires IsSquare(grid, n)
    ensures cells' == cells + LeapStep(grid, n, c, dx, dy)
  {
    cells' := cells;
    var nx1, ny1 := c.0 + dx / 2, c.1 + dy / 2;
    var nx2, ny2 := c.0 + dx, c.1 + dy;
    if Free(grid, n, nx1, ny1) {
      cells' := cells' + {(nx1, ny1)};
      if Free(grid, n, nx2, ny2) {
        cells' := cells' + {(nx2, ny2)};
      }
    }
  }

  /** `for dx, dy in directions`: the in-bounds cells at the offsets `o` from `(x, y)`. */
  method CellsAtOffsets(o: seq<(int, int)>, n: int, x: int, y: int) returns (cells: set<Cell>)
    ensures cells == OffsetPrefix(o, n, x, y, |o|)
  {
    cells := {};
    var k := 0;
    while k < |o|
      invariant 0 <= k <= |o|
      invariant cells == OffsetPrefix(o, n, x, y, k)
    {
      var (dx, dy) := o[k];
      var nx, ny := x + dx, y + dy;
      OffsetPrefixStep(o, n, x, y, k);
      if 0 <= nx < n && 0 <= ny < n {
        cells := cells + {(nx, ny)};
      }
      k := k + 1;
    }
  }

  class Unit {
    var x: int
    var y: int
    var health: real
    const maxHealth: real
    const team: Team
    var isSelected: bool
    const grid: Grid
    const gridSize: int
    const movementSpeed: int
    const attackTypes: seq<AttackProfile>
    const variant: Variant

    /** The constant part: a square map of the declared size and the variant's own profiles. */
    ghost predicate Valid() {
      && IsSquare(grid, gridSize)
      && attackTypes == ProfilesOf(variant)
      && maxHealth == StatsOf(variant).health
      && movementSpeed == StatsOf(variant).speed
    }

    /** The variant constructor: full health, unselected, at `(x0, y0)`. */
    constructor (x0: int, y0: int, v: Variant, team: Team, grid: Grid, gridSize: int)
      requires IsSquare(grid, gridSize)
      ensures Valid()
      ensures x == x0 && y == y0 && health == maxHealth == StatsOf(v).health && !isSelected
      ensures variant == v && this.team == team && this.grid == grid && this.gridSize == gridSize
    {
      x, y := x0, y0;
      health := StatsOf(v).health;
      maxHealth := StatsOf(v).health;
      this.team := team;
      isSelected := false;
      this.grid := grid;
      this.gridSize := gridSize;
      movementSpeed := StatsOf(v).speed;
      attackTypes := ProfilesOf(v);
      variant := v;
    }

    function Position(): Cell reads this { (x, y) }

    /** `move(dx, dy)` as the variant defines it. */
    method Move(dx: int, dy: int)
      requires Valid()
      modifies this`x, this`y, this`health
      ensures Body(x, y, health) == MoveResult(variant, grid, gridSize, old(Body(x, y, health)), maxHealth, dx, dy)
    {
      match variant {
        case Swordsman =>
          if 0 <= x + dx < gridSize && 0 <= y + dy < gridSize {
            if !Blocks(grid[y + dy][x + dx]) {
              x := x + dx;
              y := y + dy;
              if grid[y][x] == HealingZone && health < maxHealth {
                health := health + 1.0;
              }
            }
          }
        case Archer => LeapMove(dx, dy);
        case Invincible => LeapMove(dx, dy);
        case Wizard =>
          var nx, ny := x + dx, y + dy;
          if 0 <= nx < gridSize && 0 <= ny < gridSize {
            if !BlocksWizard(grid[ny][nx]) {
              x := nx;
              y := ny;
            }
          }
        case Bomber =>
          var nx, ny := x + dx, y + dy;
          if 0 <= nx < gridSize && 0 <= ny < gridSize {
            if !Blocks(grid[ny][nx]) {
              x, y := nx, ny;
            }
          }
      }
    }

    /** The shared body of `Archer.move` and `Invincible.move`. */
    method LeapMove(dx: int, dy: int)
      requires Valid()
      modifies this`x, this`y
      ensures (x, y) == Leap(grid, gridSize, old(x), old(y), dx, dy)
    {
      var nx1, ny1 := x + dx, y + dy;
      var nx2, ny2 := x + dx * 2, y + dy * 2;
      if 0 <= nx1 < gridSize && 0 <= ny1 < gridSize {
        if !Blocks(grid[ny1][nx1]) {
          if 0 <= nx2 < gridSize && 0 <= ny2 < gridSize {
            if !Blocks(grid[ny2][nx2]) {
              x, y := nx2, ny2;
            } else {
              x, y := nx1, ny1;
            }
          } else {
            x, y := nx1, ny1;
          }
        }
      }
    }

    /** `attack(target, attack_type)`: only the target's health changes, and only when it is
        within range on both axes. */
    method Attack(target: Unit, attackType: int)
      requires Valid() && 0 <= attackType < 2
      modifies target`health
      ensures target.health == old(target.health) - Damage(x, y, target.x, target.y, attackTypes[attackType])
    {
      var distanceX := Abs(x - target.x);
      var distanceY := Abs(y - target.y);
      var attackRange := attackTypes[attackType].range;
      var attackPower := attackTypes[attackType].power;
      if distanceX <= attackRange && distanceY <= attackRange {
        target.health := target.health - attackPower;
      }
    }

    /** `Wizard.heal`. */
    method Heal()
      requires variant == Wizard
      modifies this`health
      ensures health == Healed(old(health), maxHealth)
    {
      health := if maxHealth < health + 4.0 then maxHealth else health + 4.0;
    }

    /** `get_movable_cells` as the variant defines it. */
    method GetMovableCells() returns (cells: set<Cell>)
      requires Valid()
      ensures cells == MovableCells(variant, grid, gridSize, x, y, movementSpeed)
    {
      if variant == Archer || variant == Invincible {
        cells := LeapMovableCells();
      } else {
        cells := DiamondMovableCells();
      }
    }

    /** The base `Unit.get_movable_cells`: the diamond of radius `movement_speed`, filtered. */
    method DiamondMovableCells() returns (cells: set<Cell>)
      requires Valid()
      ensures cells == DiamondMovable(grid, gridSize, x, y, movementSpeed)
    {
      var s := movementSpeed;
      cells := {};
      var dx := -s;
      while dx <= s
        invariant -s <= dx && (s >= 0 ==> dx <= s + 1)
        invariant forall i, j :: (i, j) in cells <==>
          InBounds(gridSize, i, j) && Manhattan(x, y, i, j) <= s && !Blocks(grid[j][i]) && i < x + dx
      {
        var dy := -s;
        while dy <= s
          invariant -s <= dy <= s + 1
          invariant forall i, j :: (i, j) in cells <==>
            InBounds(gridSize, i, j) && Manhattan(x, y, i, j) <= s && !Blocks(grid[j][i]) &&
            (i < x + dx || (i == x + dx && j < y + dy))
        {
          if Abs(dx) + Abs(dy) <= s {
            var nx, ny := x + dx, y + dy;
            if 0 <= nx < gridSize && 0 <= ny < gridSize {
              if !Blocks(grid[ny][nx]) {
                cells := cells + {(nx, ny)};
              }
            }
          }
          dy := dy + 1;
        }
        dx := dx + 1;
      }
      forall c | c in cells ensures c in DiamondMovable(grid, gridSize, x, y, movementSpeed) {
        var (i, j) := c;
        assert (i, j) in cells;
        assert (i, j) in DiamondMovable(grid, gridSize, x, y, movementSpeed);
      }
    }

    /** `Archer/Invincible.get_movable_cells`: three rounds of the leap search from the unit. */
    method LeapMovableCells() returns (cells: set<Cell>)
      requires Valid()
      ensures cells == LeapReach(grid, gridSize, {(x, y)}, 3)
    {
      var reachable: set<Cell> := {(x, y)};
      var round := 0;
      while round < 3
        invariant 0 <= round <= 3
        invariant reachable == LeapReach(grid, gridSize, {(x, y)}, round)
      {
        var newCells: set<Cell> := {};
        var todo := reachable;
        while todo != {}
          invariant todo <= reachable
          invariant newCells == Expand(grid, gridSize, reachable - todo)
          decreases |todo|
        {
          var c :| c in todo;
          newCells := AddLeapSuccessors(c, newCells);
          ExpandAddOne(grid, gridSize, reachable - todo, c);
          assert reachable - (todo - {c}) == (reachable - todo) + {c};
          todo := todo - {c};
        }
        assert reachable - todo == reachable;
        reachable := reachable + newCells;
        round := round + 1;
      }
      cells := reachable;
    }

    /** One cell's turn in a round of the leap search: for each two-cell displacement, add the
        intermediate cell when it is free, and then the far cell too when that is free. */
    method AddLeapSuccessors(c: Cell, acc: set<Cell>) returns (newCells: set<Cell>)
      requires IsSquare(grid, gridSize)
      ensures newCells == acc + Successors(grid, gridSize, c)
    {
      var directions := LeapDirections;
      newCells := acc;
      var d := 0;
      while d < 4
        invariant 0 <= d <= 4
        invariant newCells == acc + SuccUpTo(grid, gridSize, c, d)
      {
        var (dx, dy) := directions[d];
        LeapSuccAt(grid, gridSize, c, d, dx, dy);
        ghost var before := newCells;
        newCells := AddLeap(grid, gridSize, c, dx, dy, newCells);
        UnionStep(acc, SuccUpTo(grid, gridSize, c, d), LeapSucc(grid, gridSize, c, d), before, newCells);
        SuccUpToStep(grid, gridSize, c, d);
        d := d + 1;
      }
    }

    /** `get_attackable_cells(attack_type)` as the variant defines it. */
    method GetAttackableCells(attackType: int) returns (cells: set<Cell>)
      requires Valid() && 0 <= attackType < 2
      ensures cells == ZoneOf(variant, gridSize, x, y, attackTypes[attackType].range)
    {
      var attackRange := attackTypes[attackType].range;
      match variant {
        case Archer => cells := RayCells(2, attackRange);
        case Swordsman => cells := RayCells(1, attackRange);
        case Wizard => cells := DiamondCells(attackRange);
        case Invincible => cells := OffsetCells();
        case Bomber => cells := AnnulusCells(attackRange);
      }
    }

    /** The ray loops of `Swordsman` (from step 1) and `Archer` (from step 2). */
    method RayCells(lo: int, r: int) returns (cells: set<Cell>)
      requires lo >= 1
      ensures cells == RayZone(gridSize, x, y, lo, r)
    {
      var directions := RayDirections;
      cells := {};
      var d := 0;
      while d < 4
        invariant 0 <= d <= 4
        invariant forall i, j :: (i, j) in cells <==>
          InBounds(gridSize, i, j) && OnRay(x, y, lo, r, i, j) && RayDir(x, y, i, j) < d
      {
        var (dx, dy) := directions[d];
        var step := lo;
        while step <= r
          invariant lo <= step && (lo <= r ==> step <= r + 1)
          invariant forall i, j :: (i, j) in cells <==>
            InBounds(gridSize, i, j) && OnRay(x, y, lo, r, i, j) &&
            (RayDir(x, y, i, j) < d || (RayDir(x, y, i, j) == d && Manhattan(x, y, i, j) < step))
        {
          var nx, ny := x + dx * step, y + dy * step;
          assert (nx, ny) == RayCell(x, y, d, step);
          forall i, j ensures OnRay(x, y, lo, r, i, j) && RayDir(x, y, i, j) == d && Manhattan(x, y, i, j) == step
                              <==> (i, j) == (nx, ny) {
            RayCellIsUnique(x, y, lo, r, d, step, i, j);
          }
          if 0 <= nx < gridSize && 0 <= ny < gridSize {
            cells := cells + {(nx, ny)};
          }
          step := step + 1;
        }
        d := d + 1;
      }
      forall c | c in cells ensures c in RayZone(gridSize, x, y, lo, r) {
        var (i, j) := c;
        assert (i, j) in cells;
        assert (i, j) in RayZone(gridSize, x, y, lo, r);
      }
    }

    /** The wizard's loop: the square of radius `r`, filtered to Manhattan distance `r`. */
    method DiamondCells(r: int) returns (cells: set<Cell>)
      ensures cells == DiamondZone(gridSize, x, y, r)
    {
      cells := {};
      var dx := -r;
      while dx <= r
        invariant -r <= dx && (r >= 0 ==> dx <= r + 1)
        invariant forall i, j :: (i, j) in cells <==>
          InBounds(gridSize, i, j) && Manhattan(x, y, i, j) <= r && i < x + dx
      {
        var dy := -r;
        while dy <= r
          invariant -r <= dy <= r + 1
          invariant forall i, j :: (i, j) in cells <==>
            InBounds(gridSize, i, j) && Manhattan(x, y, i, j) <= r && (i < x + dx || (i == x + dx && j < y + dy))
        {
          var nx, ny := x + dx, y + dy;
          if 0 <= nx < gridSize && 0 <= ny < gridSize {
            if Abs(dx) + Abs(dy) <= r {
              cells := cells + {(nx, ny)};
            }
          }
          dy := dy + 1;
        }
        dx := dx + 1;
      }
      forall c | c in cells ensures c in DiamondZone(gridSize, x, y, r) {
        var (i, j) := c;
        assert (i, j) in cells;
        assert (i, j) in DiamondZone(gridSize, x, y, r);
      }
    }

    /** The bomber's loop: the square of radius `r`, filtered to the ring between
        `max(1, r // 2)` and `r`. */
    method AnnulusCells(r: int) returns (cells: set<Cell>)
      ensures cells == AnnulusZone(gridSize, x, y, r)
    {
      cells := {};
      var minDistance := Max(1, r / 2);
      var dx := -r;
      while dx <= r
        invariant -r <= dx && (r >= 0 ==> dx <= r + 1)
        invariant forall i, j :: (i, j) in cells <==>
          InBounds(gridSize, i, j) && minDistance <= Manhattan(x, y, i, j) <= r && i < x + dx
      {
        var dy := -r;
        while dy <= r
          invariant -r <= dy <= r + 1
          invariant forall i, j :: (i, j) in cells <==>
            InBounds(gridSize, i, j) && minDistance <= Manhattan(x, y, i, j) <= r &&
            (i < x + dx || (i == x + dx && j < y + dy))
        {
          var distance := Abs(dx) + Abs(dy);
          if minDistance <= distance <= r {
            var nx, ny := x + dx, y + dy;
            if 0 <= nx < gridSize && 0 <= ny < gridSize {
              cells := cells + {(nx, ny)};
            }
          }
          dy := dy + 1;
        }
        dx := dx + 1;
      }
      forall c | c in cells ensures c in AnnulusZone(gridSize, x, y, r) {
        var (i, j) := c;
        assert (i, j) in cells;
        assert (i, j) in AnnulusZone(gridSize, x, y, r);
      }
    }

    /** The invincible's loop over its 24 offsets. */
    method OffsetCells() returns (cells: set<Cell>)
      ensures cells == OffsetZone(gridSize, x, y)
    {
      cells := CellsAtOffsets(InvincibleOffsets, gridSize, x, y);
    }
  }
}
