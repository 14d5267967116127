/** The earlier prototype: the simpler unit of unit_V2.py, with whole-number health and power on a
    fixed 17 by 17 board, and the skirmish of test2.py, two units a side, whose enemies chase a
    chosen player unit. */
module Prototype {
  import opened Terrain
  import opened Geometry
  import opened Removal
  import opened Protocol
  import Units
  import Rules

  /** `GRID_SIZE`: every unit_V2 unit lives on a 17 by 17 board. */
  const GridSize := 17

  /** The class of a unit: the base `Unit`, or one of the two subclasses the prototype has. */
  datatype Kind = Plain | Archer | Swordsman

  /** One entry of `attack_types`. */
  datatype Profile = Profile(name: string, power: int, range: int)

  // ---------------------------------------------------------------------------------------------
  // Attack profiles

  /** The profiles `Unit.__init__` installs: the special attack doubles the power and halves the
      range, rounding down as Python's `//` does. */
  function DefaultProfiles(power: int, range: int): (r: seq<Profile>)
    ensures |r| == 2 && r[0] == Profile("Basic Attack", power, range)
    ensures r[1].name == "Special Attack" && r[1].power == 2 * power
    ensures 2 * r[1].range <= range < 2 * r[1].range + 2
  {
    [Profile("Basic Attack", power, range), Profile("Special Attack", power * 2, range / 2)]
  }

  /** The profiles a unit of kind `k` ends up with: the subclasses overwrite the default ones. */
  function ProfilesOf(k: Kind, power: int, range: int): (r: seq<Profile>)
    ensures |r| == 2
  {
    match k
    case Plain => DefaultProfiles(power, range)
    case Archer => [Profile("Arrow Shot", power, range), Profile("Power Arrow", power * 2, 2)]
    case Swordsman => [Profile("Sword Slash", power, range), Profile("Heavy Strike", power * 2, 1)]
  }

  /** The health, power and range the subclass constructors pass to `Unit.__init__`. */
  function SubclassStats(k: Kind): (int, int, int)
    requires k != Plain
  {
    if k == Archer then (15, 2, 3) else (10, 3, 1)
  }

  /** The archer's profiles are (power 2, range 3) and (4, 2); the swordsman's (3, 1) and (6, 1). */
  lemma {:induction false} SubclassProfiles()
    ensures var (_, p, r) := SubclassStats(Archer);
      [(ProfilesOf(Archer, p, r)[0].power, ProfilesOf(Archer, p, r)[0].range),
       (ProfilesOf(Archer, p, r)[1].power, ProfilesOf(Archer, p, r)[1].range)] == [(2, 3), (4, 2)]
    ensures var (_, p, r) := SubclassStats(Swordsman);
      [(ProfilesOf(Swordsman, p, r)[0].power, ProfilesOf(Swordsman, p, r)[0].range),
       (ProfilesOf(Swordsman, p, r)[1].power, ProfilesOf(Swordsman, p, r)[1].range)] == [(3, 1), (6, 1)]
  {
  }

  /** Python's `list[i]`: a negative index counts from the end. */
  function Chosen(ps: seq<Profile>, i: int): Profile
    requires -|ps| <= i < |ps|
  {
    if i < 0 then ps[|ps| + i] else ps[i]
  }

  /** What `attack` takes off the target: the power of the chosen profile when the target is
      within its range on both axes, nothing otherwise. */
  function Damage(ax: int, ay: int, tx: int, ty: int, p: Profile): int {
    if Abs(ax - tx) <= p.range && Abs(ay - ty) <= p.range then p.power else 0
  }

  /** The test on both axes is the Chebyshev distance: the blow lands exactly when the target is
      at most `range` cells away, counting a diagonal step as one. */
  lemma DamageByDistance(ax: int, ay: int, tx: int, ty: int, p: Profile)
    ensures Damage(ax, ay, tx, ty, p) == (if Chebyshev(ax, ay, tx, ty) <= p.range then p.power else 0)
  {
  }

  // ---------------------------------------------------------------------------------------------
  // Attackable cells

  /** The four directions `get_attackable_cells` walks, in its order. */
  const Directions: seq<(int, int)> := [(-1, 0), (1, 0), (0, -1), (0, 1)]

  predicate IsDirection(dx: int, dy: int) {
    (dx == 0 && (dy == 1 || dy == -1)) || (dy == 0 && (dx == 1 || dx == -1))
  }

  /** The in-bounds cells at steps 1 to `k` from `(x, y)` in direction `(dx, dy)`, in order. */
  function Ray(x: int, y: int, dx: int, dy: int, k: int): seq<Cell>
    decreases k
  {
    if k <= 0 then []
    else Ray(x, y, dx, dy, k - 1) + (if InBounds(GridSize, x + dx * k, y + dy * k) then [(x + dx * k, y + dy * k)] else [])
  }

  /** The rays of the first directions of `dirs`, one after the other. */
  function Rays(dirs: seq<(int, int)>, x: int, y: int, r: int): seq<Cell>
    decreases |dirs|
  {
    if |dirs| == 0 then [] else Rays(dirs[..|dirs| - 1], x, y, r) + Ray(x, y, dirs[|dirs| - 1].0, dirs[|dirs| - 1].1, r)
  }

  /** `get_attackable_cells`: the four rays of length `attack_range` for a swordsman or an archer,
      nothing for any other unit. */
  function AttackableCells(k: Kind, x: int, y: int, r: int): seq<Cell> {
    if k == Plain then [] else Rays(Directions, x, y, r)
  }

  /** `c` lies on the ray from `(x, y)` in direction `(dx, dy)`, between steps 1 and `k`. */
  predicate Along(x: int, y: int, dx: int, dy: int, k: int, c: Cell) {
    if dx == 0 then c.0 == x && 1 <= (c.1 - y) * dy <= k
    else c.1 == y && 1 <= (c.0 - x) * dx <= k
  }

  lemma {:induction false} RayMember(x: int, y: int, dx: int, dy: int, k: int, c: Cell)
    requires IsDirection(dx, dy)
    ensures c in Ray(x, y, dx, dy, k) <==> InBounds(GridSize, c.0, c.1) && Along(x, y, dx, dy, k, c)
    decreases k
  {
    if k > 0 {
      RayMember(x, y, dx, dy, k - 1, c);
      if dx == 0 {
        assert c == (x + dx * k, y + dy * k) <==> c.0 == x && (c.1 - y) * dy == k;
      } else {
        assert c == (x + dx * k, y + dy * k) <==> c.1 == y && (c.0 - x) * dx == k;
      }
    }
  }

  /** A ray holds at most one cell per step. */
  lemma {:induction false} RayLength(x: int, y: int, dx: int, dy: int, k: int)
    ensures |Ray(x, y, dx, dy, k)| <= Max(k, 0)
    decreases k
  {
    if k > 0 {
      RayLength(x, y, dx, dy, k - 1);
    }
  }

  /** The four rays laid end to end. */
  lemma {:induction false} RaysUnfold(x: int, y: int, r: int)
    ensures Rays(Directions, x, y, r) ==
      Ray(x, y, -1, 0, r) + Ray(x, y, 1, 0, r) + Ray(x, y, 0, -1, r) + Ray(x, y, 0, 1, r)
  {
    var d1, d2, d3 := [(-1, 0)], [(-1, 0), (1, 0)], [(-1, 0), (1, 0), (0, -1)];
    assert d1[..0] == [] && d2[..1] == d1 && d3[..2] == d2 && Directions[..3] == d3;
    assert Rays(d1, x, y, r) == Ray(x, y, -1, 0, r);
    assert Rays(d2, x, y, r) == Ray(x, y, -1, 0, r) + Ray(x, y, 1, 0, r);
    assert Rays(d3, x, y, r) == Ray(x, y, -1, 0, r) + Ray(x, y, 1, 0, r) + Ray(x, y, 0, -1, r);
  }

  /** A swordsman or an archer can attack exactly the in-bounds cells of its row and column at
      distance 1 to `attack_range`; its own cell never; any other unit nothing at all. */
  lemma {:induction false} AttackableIff(k: Kind, x: int, y: int, r: int, c: Cell)
    ensures c in AttackableCells(k, x, y, r) <==>
      k != Plain && InBounds(GridSize, c.0, c.1) &&
      ((c.1 == y && 1 <= Abs(c.0 - x) <= r) || (c.0 == x && 1 <= Abs(c.1 - y) <= r))
  {
    if k != Plain {
      RaysUnfold(x, y, r);
      RayMember(x, y, -1, 0, r, c);
      RayMember(x, y, 1, 0, r, c);
      RayMember(x, y, 0, -1, r, c);
      RayMember(x, y, 0, 1, r, c);
    }
  }

  /** At most `4 * attack_range` cells, whichever attack is then chosen. */
  lemma {:induction false} AttackableCount(k: Kind, x: int, y: int, r: int)
    ensures |AttackableCells(k, x, y, r)| <= 4 * Max(r, 0)
  {
    if k != Plain {
      RaysUnfold(x, y, r);
      RayLength(x, y, -1, 0, r);
      RayLength(x, y, 1, 0, r);
      RayLength(x, y, 0, -1, r);
      RayLength(x, y, 0, 1, r);
    }
  }

  /** The inner `for step in range(1, attack_range + 1)` loop for one direction. */
  method WalkRay(x: int, y: int, dx: int, dy: int, r: int, cells: seq<Cell>) returns (cells': seq<Cell>)
    ensures cells' == cells + Ray(x, y, dx, dy, r)
  {
    cells' := cells;
    if r <= 0 {
      return;
    }
    var step := 1;
    while step <= r
      invariant 1 <= step <= r + 1
      invariant cells' == cells + Ray(x, y, dx, dy, step - 1)
    {
      var newX := x + dx * step;
      var newY := y + dy * step;
      if 0 <= newX < GridSize && 0 <= newY < GridSize {
        cells' := cells' + [(newX, newY)];
      }
      step := step + 1;
    }
  }

  /** The outer `for dx, dy in ...` loop over the directions `dirs`. */
  method WalkRays(dirs: seq<(int, int)>, x: int, y: int, r: int) returns (cells: seq<Cell>)
    ensures cells == Rays(dirs, x, y, r)
  {
    cells := [];
    var d := 0;
    while d < |dirs|
      invariant 0 <= d <= |dirs|
      invariant cells == Rays(dirs[..d], x, y, r)
    {
      var (dx, dy) := dirs[d];
      assert dirs[..d + 1][..d] == dirs[..d];
      cells := WalkRay(x, y, dx, dy, r, cells);
      d := d + 1;
    }
    assert dirs[..d] == dirs;
  }

  // ---------------------------------------------------------------------------------------------
  // The unit

  class Unit {
    var x: int
    var y: int
    var health: int
    const maxHealth: int
    const attackPower: int
    const team: Units.Team
    var isSelected: bool
    const grid: Grid
    const attackRange: int
    const attackTypes: seq<Profile>
    const kind: Kind

    /** The profiles are those of the unit's class. */
    ghost predicate Valid() {
      attackTypes == ProfilesOf(kind, attackPower, attackRange)
    }

    /** `Unit(x, y, health, attack_power, team, grid, attack_range)`. */
    constructor (x0: int, y0: int, health0: int, power: int, team: Units.Team, grid: Grid, range: int)
      ensures Valid() && kind == Plain
      ensures x == x0 && y == y0 && health == maxHealth == health0 && !isSelected
      ensures attackPower == power && attackRange == range && this.team == team && this.grid == grid
    {
      x, y := x0, y0;
      health, maxHealth := health0, health0;
      attackPower := power;
      this.team := team;
      isSelected := false;
      this.grid := grid;
      attackRange := range;
      attackTypes := DefaultProfiles(power, range);
      kind := Plain;
    }

    /** `Archer(x, y, team, grid)` and `Swordsman(x, y, team, grid)`. */
    constructor OfKind(k: Kind, x0: int, y0: int, team: Units.Team, grid: Grid)
      requires k != Plain
      ensures Valid() && kind == k
      ensures x == x0 && y == y0 && health == maxHealth == SubclassStats(k).0 && !isSelected
      ensures attackPower == SubclassStats(k).1 && attackRange == SubclassStats(k).2
      ensures this.team == team && this.grid == grid
    {
      var (h, p, r) := SubclassStats(k);
      x, y := x0, y0;
      health, maxHealth := h, h;
      attackPower := p;
      this.team := team;
      isSelected := false;
      this.grid := grid;
      attackRange := r;
      attackTypes := ProfilesOf(k, p, r);
      kind := k;
    }

    /** `move(dx, dy)`: the whole step onto an in-bounds cell that is not `mur`, `arbre` or `mer`,
        or no move at all; health is not touched. The board must be at least 17 by 17, otherwise
        the lookup fails. */
    method Move(dx: int, dy: int)
      requires IsSquare(grid, GridSize)
      modifies this`x, this`y
      ensures (x, y) == Step(grid, GridSize, old(x), old(y), dx, dy)
    {
      if 0 <= x + dx < GridSize && 0 <= y + dy < GridSize {
        if !Blocks(grid[y + dy][x + dx]) {
          x := x + dx;
          y := y + dy;
        }
      }
    }

    /** `attack(target, attack_type)`: only the target's health changes, by the chosen profile's
        damage. */
    method Attack(target: Unit, attackType: int)
      requires -|attackTypes| <= attackType < |attackTypes|
      modifies target`health
      ensures target.health == old(target.health) - Damage(x, y, target.x, target.y, Chosen(attackTypes, attackType))
    {
      var distanceX := Abs(x - target.x);
      var distanceY := Abs(y - target.y);
      var attackRange := Chosen(attackTypes, attackType).range;
      var attackPower := Chosen(attackTypes, attackType).power;
      if distanceX <= attackRange && distanceY <= attackRange {
        target.health := target.health - attackPower;
      }
    }

    /** `get_attackable_cells()`. */
    method GetAttackableCells() returns (cells: seq<Cell>)
      ensures cells == AttackableCells(kind, x, y, attackRange)
    {
      cells := [];
      if kind == Swordsman || kind == Archer {
        cells := WalkRays(Directions, x, y, attackRange);
      }
    }
  }

  // ---------------------------------------------------------------------------------------------
  // The skirmish on values

  /** What the turns of test2.py read or change in a unit object. */
  datatype View = View(x: int, y: int, health: int, selected: bool, attackTypes: seq<Profile>)

  /** `attacker.attack(target)` with the default attack type 0. Every unit holds its two profiles,
      so the empty case does not arise. */
  function Blow(a: View, t: View): int {
    if |a.attackTypes| > 0 then Damage(a.x, a.y, t.x, t.y, a.attackTypes[0]) else 0
  }

  /** Within one cell on both axes: the test both turns make before attacking. */
  predicate Adjacent(a: View, t: View) {
    Chebyshev(a.x, a.y, t.x, t.y) <= 1
  }

  predicate AllAlive(vs: seq<View>) {
    forall k :: 0 <= k < |vs| ==> vs[k].health > 0
  }

  /** The step an enemy takes on one axis: 1 toward a larger coordinate, -1 toward a smaller one,
      0 when already level. */
  function Sign(d: int): (s: int)
    ensures -1 <= s <= 1 && (s > 0 <==> d > 0) && (s < 0 <==> d < 0)
  {
    if d > 0 then 1 else if d < 0 then -1 else 0
  }

  /** `b` is `a` moved by at most one cell, with nothing else changed. */
  predicate Shifted(a: View, b: View) {
    b == a.(x := b.x, y := b.y) && Chebyshev(a.x, a.y, b.x, b.y) <= 1
  }

  /** The enemy's move toward its target: the sign of the difference on each axis, so possibly a
      diagonal step, taken whole or not at all. */
  function Chase(grid: Grid, e: View, t: View): View
    requires IsSquare(grid, GridSize)
  {
    var c := Step(grid, GridSize, e.x, e.y, Sign(t.x - e.x), Sign(t.y - e.y));
    e.(x := c.0, y := c.1)
  }

  /** The chase keeps the enemy's health, moves it at most one cell, never takes it farther from
      its target, and a step actually taken brings it one cell closer. */
  lemma {:induction false} ChaseCloses(grid: Grid, e: View, t: View)
    requires IsSquare(grid, GridSize)
    ensures var e' := Chase(grid, e, t);
      && Shifted(e, e')
      && Chebyshev(e'.x, e'.y, t.x, t.y) <= Chebyshev(e.x, e.y, t.x, t.y)
      && ((e'.x, e'.y) != (e.x, e.y) ==> Chebyshev(e'.x, e'.y, t.x, t.y) == Chebyshev(e.x, e.y, t.x, t.y) - 1)
  {
    var sx, sy := Sign(t.x - e.x), Sign(t.y - e.y);
    StepIsAtomic(grid, GridSize, e.x, e.y, sx, sy);
    if Free(grid, GridSize, e.x + sx, e.y + sy) {
      assert Abs(t.x - (e.x + sx)) == Max(Abs(t.x - e.x) - 1, 0);
      assert Abs(t.y - (e.y + sy)) == Max(Abs(t.y - e.y) - 1, 0);
    }
  }

  /** One iteration of `handle_enemy_turn`: enemy `e` chases player `i` and, when that leaves it
      adjacent, attacks it; the player is removed from the list when that leaves it with no
      health. The enemy comes back moved, the player list as it then is. */
  function EnemyAct(grid: Grid, e: View, ps: seq<View>, i: int): (View, seq<View>)
    requires IsSquare(grid, GridSize) && 0 <= i < |ps|
  {
    var e' := Chase(grid, e, ps[i]);
    (e', Attacked(e', ps, i))
  }

  /** The player list after enemy `e` has attacked player `i` if adjacent. */
  function Attacked(e: View, ps: seq<View>, i: int): seq<View>
    requires 0 <= i < |ps|
  {
    var t := ps[i].(health := ps[i].health - Blow(e, ps[i]));
    if !Adjacent(e, ps[i]) then ps
    else if t.health <= 0 then Without(ps, i)
    else ps[i := t]
  }

  /** The two lists partway through an enemy turn, and whether `random.choice` has failed. */
  datatype Turn = Turn(enemies: seq<View>, players: seq<View>, crashed: bool)

  /** The index `random.choice` returns on a list of `n` elements, named by `p`: every index of
      the list is named by some `p`, and `p` itself names it when in range. */
  function Pick(p: int, n: int): (i: int)
    requires n > 0
    ensures 0 <= i < n && (0 <= p < n ==> i == p)
  {
    if p < 0 then 0 else if p >= n then n - 1 else p
  }

  /** The first `j` iterations of `handle_enemy_turn`; enemy `m` attacks
      player `Pick(picks[m], |players|)`, the one `random.choice` returned. On an empty player list the call
      fails and nothing happens from then on. */
  function EnemyTurn(grid: Grid, es: seq<View>, ps: seq<View>, picks: seq<int>, j: int): (r: Turn)
    requires IsSquare(grid, GridSize) && 0 <= j <= |es| == |picks|
    ensures |r.enemies| == |es|
    decreases j
  {
    if j == 0 then Turn(es, ps, false)
    else
      var r := EnemyTurn(grid, es, ps, picks, j - 1);
      if r.crashed then r
      else if |r.players| == 0 then r.(crashed := true)
      else
        var act := EnemyAct(grid, r.enemies[j - 1], r.players, Pick(picks[j - 1], |r.players|));
        Turn(r.enemies[j - 1 := act.0], act.1, false)
  }

  /** An enemy's attack on player `i`: players are only hurt when the enemy stands adjacent to
      its target, only the target is hurt, by the attacker's blow, and it leaves the list exactly
      when that leaves it with no health; with all players alive beforehand, all are alive
      afterwards. */
  lemma {:induction false} AttackedFacts(e: View, ps: seq<View>, i: int)
    requires 0 <= i < |ps|
    ensures var ps' := Attacked(e, ps, i);
      && (!Adjacent(e, ps[i]) ==> ps' == ps)
      && (|ps'| == |ps| - 1 <==> Adjacent(e, ps[i]) && ps[i].health - Blow(e, ps[i]) <= 0)
      && (|ps'| == |ps| ==> forall k :: 0 <= k < |ps| && k != i ==> ps'[k] == ps[k])
      && (|ps'| == |ps| ==> ps'[i] == ps[i].(health := ps[i].health - (if Adjacent(e, ps[i]) then Blow(e, ps[i]) else 0)))
      && (|ps'| != |ps| ==> ps' == Without(ps, i))
      && (AllAlive(ps) ==> AllAlive(ps'))
  {
  }

  /** The enemies not reached yet are untouched. */
  lemma {:induction false} EnemyTurnAhead(grid: Grid, es: seq<View>, ps: seq<View>, picks: seq<int>, j: int)
    requires IsSquare(grid, GridSize) && 0 <= j <= |es| == |picks|
    ensures forall k :: j <= k < |es| ==> EnemyTurn(grid, es, ps, picks, j).enemies[k] == es[k]
    decreases j
  {
    if j > 0 {
      EnemyTurnAhead(grid, es, ps, picks, j - 1);
    }
  }

  /** One iteration of the enemy turn moves only the enemy whose turn it is, by its chase. */
  lemma {:induction false} EnemyTurnStep(grid: Grid, es: seq<View>, ps: seq<View>, picks: seq<int>, j: int)
    requires IsSquare(grid, GridSize) && 0 < j <= |es| == |picks|
    ensures var r := EnemyTurn(grid, es, ps, picks, j - 1);
      EnemyTurn(grid, es, ps, picks, j).enemies ==
        if r.crashed || |r.players| == 0 then r.enemies
        else r.enemies[j - 1 := Chase(grid, r.enemies[j - 1], r.players[Pick(picks[j - 1], |r.players|)])]
  {
  }

  /** The iteration of the enemy turn in which enemy `j - 1` acts leaves every other enemy as it
      was. */
  lemma {:induction false} EnemyTurnOthers(grid: Grid, es: seq<View>, ps: seq<View>, picks: seq<int>, j: int, k: int)
    requires IsSquare(grid, GridSize) && 0 < j <= |es| == |picks| && 0 <= k < |es| && k != j - 1
    ensures EnemyTurn(grid, es, ps, picks, j).enemies[k] == EnemyTurn(grid, es, ps, picks, j - 1).enemies[k]
  {
    EnemyTurnStep(grid, es, ps, picks, j);
  }

  /** In its own iteration an enemy moves at most one cell from where it started, keeping its
      health and profiles. */
  lemma {:induction false} EnemyTurnOwnMove(grid: Grid, es: seq<View>, ps: seq<View>, picks: seq<int>, j: int)
    requires IsSquare(grid, GridSize) && 0 < j <= |es| == |picks|
    ensures Shifted(es[j - 1], EnemyTurn(grid, es, ps, picks, j).enemies[j - 1])
  {
    EnemyTurnStep(grid, es, ps, picks, j);
    EnemyTurnAhead(grid, es, ps, picks, j - 1);
    var r := EnemyTurn(grid, es, ps, picks, j - 1);
    assert r.enemies[j - 1] == es[j - 1];
    if !r.crashed && |r.players| > 0 {
      ChaseCloses(grid, es[j - 1], r.players[Pick(picks[j - 1], |r.players|)]);
    }
  }

  /** Over a whole enemy turn every enemy keeps its health and its profiles and moves at most one
      cell. */
  lemma {:induction false} EnemyTurnMoves(grid: Grid, es: seq<View>, ps: seq<View>, picks: seq<int>, j: int, k: int)
    requires IsSquare(grid, GridSize) && 0 <= j <= |es| == |picks| && 0 <= k < |es|
    ensures Shifted(es[k], EnemyTurn(grid, es, ps, picks, j).enemies[k])
    decreases j
  {
    if j > 0 {
      if k == j - 1 {
        EnemyTurnOwnMove(grid, es, ps, picks, j);
      } else {
        EnemyTurnMoves(grid, es, ps, picks, j - 1, k);
        EnemyTurnOthers(grid, es, ps, picks, j, k);
      }
    }
  }

  /** One iteration of the enemy turn changes the player list only by the acting enemy's attack,
      and fails exactly on an empty list. */
  lemma {:induction false} EnemyTurnPlayersStep(grid: Grid, es: seq<View>, ps: seq<View>, picks: seq<int>, j: int)
    requires IsSquare(grid, GridSize) && 0 < j <= |es| == |picks|
    ensures var r := EnemyTurn(grid, es, ps, picks, j - 1);
      var r' := EnemyTurn(grid, es, ps, picks, j);
      && (r'.crashed <==> r.crashed || |r.players| == 0)
      && r'.players == if r'.crashed then r.players
         else Attacked(Chase(grid, r.enemies[j - 1], r.players[Pick(picks[j - 1], |r.players|)]), r.players, Pick(picks[j - 1], |r.players|))
  {
  }

  /** `ps'` is `ps` thinned out: no longer, and with only living units when `ps` had only those. */
  ghost predicate Thinned(ps: seq<View>, ps': seq<View>) {
    |ps'| <= |ps| && (AllAlive(ps) ==> AllAlive(ps'))
  }

  /** An enemy's attack thins the player list out. */
  lemma {:induction false} AttackedThins(e: View, ps: seq<View>, i: int)
    requires 0 <= i < |ps|
    ensures Thinned(ps, Attacked(e, ps, i))
  {
    AttackedFacts(e, ps, i);
  }

  /** One iteration of the enemy turn thins the player list out. */
  lemma {:induction false} EnemyTurnThinsStep(grid: Grid, es: seq<View>, ps: seq<View>, picks: seq<int>, j: int)
    requires IsSquare(grid, GridSize) && 0 < j <= |es| == |picks|
    ensures Thinned(EnemyTurn(grid, es, ps, picks, j - 1).players, EnemyTurn(grid, es, ps, picks, j).players)
  {
    EnemyTurnPlayersStep(grid, es, ps, picks, j);
    var r := EnemyTurn(grid, es, ps, picks, j - 1);
    if !r.crashed && |r.players| > 0 {
      var i := Pick(picks[j - 1], |r.players|);
      AttackedThins(Chase(grid, r.enemies[j - 1], r.players[i]), r.players, i);
    }
  }

  /** Over a whole enemy turn the player list only shrinks and, starting with living units, keeps
      only living units. */
  lemma {:induction false} EnemyTurnPlayers(grid: Grid, es: seq<View>, ps: seq<View>, picks: seq<int>, j: int)
    requires IsSquare(grid, GridSize) && 0 <= j <= |es| == |picks|
    ensures Thinned(ps, EnemyTurn(grid, es, ps, picks, j).players)
    decreases j
  {
    if j > 0 {
      EnemyTurnPlayers(grid, es, ps, picks, j - 1);
      EnemyTurnThinsStep(grid, es, ps, picks, j);
      ThinnedTransitive(ps, EnemyTurn(grid, es, ps, picks, j - 1).players, EnemyTurn(grid, es, ps, picks, j).players);
    }
  }

  lemma ThinnedTransitive(a: seq<View>, b: seq<View>, c: seq<View>)
    requires Thinned(a, b) && Thinned(b, c)
    ensures Thinned(a, c)
  {
  }

  /** The enemy turn fails exactly when an enemy finds the player list empty, and then it is. */
  lemma {:induction false} EnemyTurnCrash(grid: Grid, es: seq<View>, ps: seq<View>, picks: seq<int>, j: int)
    requires IsSquare(grid, GridSize) && 0 <= j <= |es| == |picks|
    ensures EnemyTurn(grid, es, ps, picks, j).crashed ==> |EnemyTurn(grid, es, ps, picks, j).players| == 0
    ensures j > 0 && |ps| == 0 ==> EnemyTurn(grid, es, ps, picks, j).crashed
    decreases j
  {
    if j > 0 {
      EnemyTurnCrash(grid, es, ps, picks, j - 1);
      EnemyTurnPlayersStep(grid, es, ps, picks, j);
    }
  }

  /** Once `random.choice` has failed, the rest of the turn does not happen. */
  lemma {:induction false} CrashPersists(grid: Grid, es: seq<View>, ps: seq<View>, picks: seq<int>, j: int, j': int)
    requires IsSquare(grid, GridSize) && 0 <= j <= j' <= |es| == |picks|
    requires EnemyTurn(grid, es, ps, picks, j).crashed
    ensures EnemyTurn(grid, es, ps, picks, j') == EnemyTurn(grid, es, ps, picks, j)
    decreases j'
  {
    if j' > j {
      CrashPersists(grid, es, ps, picks, j, j' - 1);
    }
  }

  /** The test of the space-bar loop: the enemies adjacent to the attacker. */
  function SpaceZone(a: View, es: seq<View>): (r: seq<bool>)
    ensures |r| == |es| && forall k :: 0 <= k < |es| ==> r[k] == Adjacent(a, es[k])
  {
    seq(|es|, k requires 0 <= k < |es| => Adjacent(a, es[k]))
  }

  function SpaceLethal(a: View, es: seq<View>): (r: seq<bool>)
    ensures |r| == |es| && forall k :: 0 <= k < |es| ==> r[k] == (es[k].health - Blow(a, es[k]) <= 0)
  {
    seq(|es|, k requires 0 <= k < |es| => es[k].health - Blow(a, es[k]) <= 0)
  }

  /** What the space-bar loop, which removes from `enemy_units` while walking over it, does to
      each enemy. */
  function SpaceFates(a: View, es: seq<View>): (f: seq<Fate>)
    ensures |f| == |es|
  {
    Fates(SpaceZone(a, es), SpaceLethal(a, es))
  }

  /** The enemies after their blows, before the dead are taken out. */
  function SpaceBlows(a: View, es: seq<View>): (r: seq<View>)
    ensures |r| == |es|
    ensures forall k :: 0 <= k < |es| ==>
      r[k] == (if SpaceFates(a, es)[k] != Untouched then es[k].(health := es[k].health - Blow(a, es[k])) else es[k])
  {
    var f := SpaceFates(a, es);
    seq(|es|, k requires 0 <= k < |es| => if f[k] != Untouched then es[k].(health := es[k].health - Blow(a, es[k])) else es[k])
  }

  /** The enemy list once the attacker `a` has pressed space. */
  function SpaceStrike(a: View, es: seq<View>): seq<View> {
    Survivors(SpaceBlows(a, es), SpaceFates(a, es))
  }

  /** An enemy that is not adjacent to the attacker is neither hit nor removed; every enemy left
      in the list is one the loop did not remove, hit or as it was; and with all enemies alive
      beforehand, all those left are alive. */
  lemma {:induction false} SpaceStrikeFacts(a: View, es: seq<View>)
    ensures forall k :: 0 <= k < |es| && !Adjacent(a, es[k]) ==>
      SpaceFates(a, es)[k] == Untouched && es[k] in SpaceStrike(a, es)
    ensures |SpaceStrike(a, es)| == |es| - KillCount(SpaceFates(a, es))
    ensures AllAlive(es) ==> AllAlive(SpaceStrike(a, es))
  {
    var zone, lethal, f, hit := SpaceZone(a, es), SpaceLethal(a, es), SpaceFates(a, es), SpaceBlows(a, es);
    SurvivorsAreKept(hit, f);
    forall k | 0 <= k < |es| && !Adjacent(a, es[k])
      ensures f[k] == Untouched && es[k] in SpaceStrike(a, es)
    {
      KilledMeansLethal(zone, lethal, k);
      assert k in Kept(f);
      var m :| 0 <= m < |Kept(f)| && Kept(f)[m] == k;
      assert SpaceStrike(a, es)[m] == es[k];
    }
    if AllAlive(es) {
      forall m | 0 <= m < |SpaceStrike(a, es)| ensures SpaceStrike(a, es)[m].health > 0 {
        var k := Kept(f)[m];
        KilledMeansLethal(zone, lethal, k);
      }
    }
  }

  /** Two lethal enemies side by side in the attacker's reach: the first is removed, and the
      second is skipped, neither hit nor removed. */
  lemma {:induction false} SpaceSkipsAfterRemoval(a: View, es: seq<View>, k: int)
    requires 0 <= k < |es| - 1
    requires SpaceFates(a, es)[k] == Killed
    ensures SpaceFates(a, es)[k + 1] == Untouched && SpaceBlows(a, es)[k + 1] == es[k + 1]
  {
    SkipsAfterRemoval(SpaceZone(a, es), SpaceLethal(a, es), k);
  }

  /** The lists after one key event during a player unit's turn, whether the unit has acted, and
      whether the game was quit. */
  datatype KeyResult = KeyResult(players: seq<View>, enemies: seq<View>, acted: bool, quit: bool)

  /** One event of the `while not has_acted` loop of `handle_player_turn` for player unit `i`:
      closing the window quits; any key moves the unit by its arrow step, (0, 0) for the other
      keys; space then attacks the adjacent enemies and ends the unit's turn. */
  function PlayerKey(grid: Grid, ps: seq<View>, es: seq<View>, i: int, e: Event): KeyResult
    requires IsSquare(grid, GridSize) && 0 <= i < |ps|
  {
    if e == Close then KeyResult(ps, es, false, true)
    else
      var ps' := Stepped(grid, ps, i, Arrow(e).0, Arrow(e).1);
      if e == Space then KeyResult(ps'[i := ps'[i].(selected := false)], SpaceStrike(ps'[i], es), true, false)
      else KeyResult(ps', es, false, false)
  }

  /** Unit `i` of `ps` after `move(dx, dy)`. */
  function Stepped(grid: Grid, ps: seq<View>, i: int, dx: int, dy: int): seq<View>
    requires IsSquare(grid, GridSize) && 0 <= i < |ps|
  {
    var c := Step(grid, GridSize, ps[i].x, ps[i].y, dx, dy);
    ps[i := ps[i].(x := c.0, y := c.1)]
  }

  /** A key event touches no other player unit and never the unit's own health; a key that is not
      an arrow, space included, leaves the unit where it stands; only space attacks, and it ends
      the turn with the unit deselected. */
  lemma {:induction false} PlayerKeyFacts(grid: Grid, ps: seq<View>, es: seq<View>, i: int, e: Event)
    requires IsSquare(grid, GridSize) && 0 <= i < |ps|
    ensures var r := PlayerKey(grid, ps, es, i, e);
      && (r.quit <==> e == Close) && (r.acted <==> e == Space)
      && |r.players| == |ps| && (forall k :: 0 <= k < |ps| && k != i ==> r.players[k] == ps[k])
      && r.players[i].health == ps[i].health
      && (!IsArrow(e) ==> (r.players[i].x, r.players[i].y) == (ps[i].x, ps[i].y))
      && (e != Space ==> r.enemies == es)
      && (e == Space ==> !r.players[i].selected && r.enemies == SpaceStrike(ps[i].(x := r.players[i].x, y := r.players[i].y), es))
  {
    if !IsArrow(e) {
      assert Arrow(e) == (0, 0);
    }
  }

  // ---------------------------------------------------------------------------------------------
  // The skirmish on objects

  /** The value a unit object currently holds. */
  function See(u: Unit): View
    reads u
  {
    View(u.x, u.y, u.health, u.isSelected, u.attackTypes)
  }

  function SeeAll(us: seq<Unit>): (r: seq<View>)
    reads us
    ensures |r| == |us| && forall k {:trigger r[k]} :: 0 <= k < |us| ==> r[k] == See(us[k])
  {
    seq(|us|, k reads us requires 0 <= k < |us| => See(us[k]))
  }

  /** A unit of this skirmish: one that can attack with its default profile, on the skirmish's
      board. */
  ghost predicate Fits(u: Unit, grid: Grid) {
    |u.attackTypes| > 0 && u.grid == grid
  }

  /** `move(dx, dy)` on unit `i` of `us`: only that unit's position changes, as the step says, and
      nothing in `others`, a list it is not in. */
  method MoveOne(us: seq<Unit>, i: int, others: seq<Unit>, dx: int, dy: int)
    requires 0 <= i < |us| && Distinct(us) && us[i] !in others && IsSquare(us[i].grid, GridSize)
    modifies us[i]
    ensures var c := Step(us[i].grid, GridSize, old(us[i].x), old(us[i].y), dx, dy);
      SeeAll(us) == old(SeeAll(us))[i := old(See(us[i])).(x := c.0, y := c.1)]
    ensures SeeAll(others) == old(SeeAll(others))
  {
    ghost var r, o := SeeAll(us), SeeAll(others);
    us[i].Move(dx, dy);
    forall k | 0 <= k < |us| && k != i ensures SeeAll(us)[k] == r[k] {
      assert us[k] != us[i];
    }
    forall k | 0 <= k < |others| ensures SeeAll(others)[k] == o[k] {
      assert others[k] != us[i];
    }
  }

  /** `is_selected = b` on unit `i` of `us`, and nothing else. */
  method MarkOne(us: seq<Unit>, i: int, others: seq<Unit>, b: bool)
    requires 0 <= i < |us| && Distinct(us) && us[i] !in others
    modifies us[i]
    ensures SeeAll(us) == old(SeeAll(us))[i := old(See(us[i])).(selected := b)]
    ensures SeeAll(others) == old(SeeAll(others))
  {
    ghost var r, o := SeeAll(us), SeeAll(others);
    us[i].isSelected := b;
    forall k | 0 <= k < |us| && k != i ensures SeeAll(us)[k] == r[k] {
      assert us[k] != us[i];
    }
    forall k | 0 <= k < |others| ensures SeeAll(others)[k] == o[k] {
      assert others[k] != us[i];
    }
  }

  /** The list without its element at index `i`. */
  function Without<T>(s: seq<T>, i: int): (r: seq<T>)
    requires 0 <= i < |s|
    ensures |r| == |s| - 1
  {
    s[..i] + s[i + 1..]
  }

  /** Dropping index `i` shifts every later element down by one and keeps the earlier ones. */
  lemma WithoutElements<T>(s: seq<T>, i: int)
    requires 0 <= i < |s|
    ensures forall k :: 0 <= k < |s| - 1 ==> Without(s, i)[k] == s[if k < i then k else k + 1]
  {
  }

  /** Whatever index `i` held, it is gone once dropped. */
  lemma WithoutUpdated<T>(s: seq<T>, i: int, v: T)
    requires 0 <= i < |s|
    ensures Without(s[i := v], i) == Without(s, i)
  {
    assert s[i := v][..i] == s[..i];
    assert s[i := v][i + 1..] == s[i + 1..];
  }

  /** `list.remove(u)` of the unit at index `i`: the list holds each unit once, so that is just
      index `i`, and the rest keep their order. */
  lemma {:induction false} DropOne(us: seq<Unit>, i: int)
    requires 0 <= i < |us| && Distinct(us)
    ensures Distinct(Without(us, i))
    ensures forall k :: 0 <= k < |Without(us, i)| ==> Without(us, i)[k] in us
    ensures SeeAll(Without(us, i)) == Without(SeeAll(us), i)
  {
  }

  /** What the walk needs to know about enemy `k`: it is struck when it is visited and adjacent,
      never visited right after a removal, a struck enemy loses the blow, and it is removed
      exactly when that leaves it with no health. */
  ghost predicate SpaceFacts(a: View, s0: seq<View>, f: seq<Fate>, hit: seq<View>, k: int) {
    && |s0| == |f| == |hit| && 0 <= k < |s0|
    && ((k == 0 || f[k - 1] != Killed) ==> (f[k] != Untouched <==> Adjacent(a, s0[k])))
    && (k > 0 && f[k - 1] == Killed ==> f[k] == Untouched)
    && hit[k] == (if f[k] != Untouched then s0[k].(health := s0[k].health - Blow(a, s0[k])) else s0[k])
    && (f[k] == Killed <==> f[k] != Untouched && hit[k].health <= 0)
  }

  lemma {:induction false} SpaceStepFacts(a: View, s0: seq<View>, k: int)
    requires 0 <= k < |s0|
    ensures SpaceFacts(a, s0, SpaceFates(a, s0), SpaceBlows(a, s0), k)
  {
    var zone, lethal := SpaceZone(a, s0), SpaceLethal(a, s0);
    KilledMeansLethal(zone, lethal, k);
    VisitedIff(zone, lethal, k);
  }

  /** The walk's state before enemy `k`, on values: the first `k` as their blows left them, the
      others as they were. */
  ghost predicate Dealt(now: seq<View>, s0: seq<View>, hit: seq<View>, k: int) {
    |now| == |s0| == |hit| && forall m :: 0 <= m < |now| ==> now[m] == (if m < k then hit[m] else s0[m])
  }

  ghost predicate BlowsDealt(ts: seq<Unit>, s0: seq<View>, hit: seq<View>, k: int)
    reads ts
  {
    |s0| == |ts| == |hit| && forall m :: 0 <= m < |ts| ==> See(ts[m]) == (if m < k then hit[m] else s0[m])
  }

  /** The walk's state read off the objects is the state on values. */
  lemma DealtSeen(ts: seq<Unit>, s0: seq<View>, hit: seq<View>, k: int)
    ensures BlowsDealt(ts, s0, hit, k) <==> Dealt(SeeAll(ts), s0, hit, k)
  {
    if Dealt(SeeAll(ts), s0, hit, k) {
      forall m | 0 <= m < |ts| ensures See(ts[m]) == (if m < k then hit[m] else s0[m]) {
        assert SeeAll(ts)[m] == See(ts[m]);
      }
    }
  }

  lemma DealtStep(now: seq<View>, s0: seq<View>, hit: seq<View>, k: int, k': int)
    requires Dealt(now, s0, hit, k) && 0 <= k < |now| && k < k' <= k + 2 && k' <= |now|
    requires k' == k + 2 ==> hit[k + 1] == s0[k + 1]
    ensures Dealt(now[k := hit[k]], s0, hit, k')
  {
  }

  /** `unit.attack(target)` on element `k` of `ts`: the target loses the blow, and nothing else
      changes, neither the rest of `ts`, nor the attacker, nor `others`, a list the target is not
      in. */
  method StrikeOne(unit: Unit, target: Unit, ghost ts: seq<Unit>, ghost k: int, ghost others: seq<Unit>)
    requires |unit.attackTypes| > 0 && 0 <= k < |ts| && ts[k] == target && unit != target && Distinct(ts) && target !in others
    modifies ts[k]
    ensures See(unit) == old(See(unit))
    ensures SeeAll(ts) == old(SeeAll(ts))[k := old(See(ts[k])).(health := old(ts[k].health) - Blow(old(See(unit)), old(See(ts[k]))))]
    ensures SeeAll(others) == old(SeeAll(others))
  {
    ghost var r, o := SeeAll(ts), SeeAll(others);
    unit.Attack(target, 0);
    forall m | 0 <= m < |ts| && m != k ensures SeeAll(ts)[m] == r[m] {
      assert ts[m] != ts[k];
    }
    forall m | 0 <= m < |others| ensures SeeAll(others)[m] == o[m] {
      assert others[m] != ts[k];
    }
  }

  /** The space-bar loop on an adjacent enemy: attack it, and remove it from the list when the
      blow leaves it with no health (`remove(enemy)` drops index `i`, the list holding each unit
      once). */
  method HitEnemy(unit: Unit, ts: seq<Unit>, ghost s0: seq<View>, ghost f: seq<Fate>, ghost hit: seq<View>,
                  targets: seq<Unit>, i: int, ghost k: int) returns (targets': seq<Unit>, ghost k': int)
    requires |unit.attackTypes| > 0 && unit !in ts && Distinct(ts)
    requires Walk(ts, f, k, targets, i) && k < |ts| && BlowsDealt(ts, s0, hit, k)
    requires 0 <= i < |targets| && targets[i] == ts[k] && f[k] != Untouched
    requires hit[k] == s0[k].(health := s0[k].health - Blow(See(unit), s0[k]))
    requires f[k] == Killed <==> hit[k].health <= 0
    requires f[k] == Killed && k + 1 < |ts| ==> f[k + 1] == Untouched && hit[k + 1] == s0[k + 1]
    modifies ts
    ensures k < k' && Walk(ts, f, k', targets', i + 1) && BlowsDealt(ts, s0, hit, k')
    ensures See(unit) == old(See(unit))
  {
    var enemy := targets[i];
    ghost var before := SeeAll(ts);
    DealtSeen(ts, s0, hit, k);
    StrikeOne(unit, enemy, ts, k, []);
    assert SeeAll(ts)[k] == See(ts[k]) == hit[k];
    if enemy.health <= 0 {
      WalkRemoves(ts, f, k, targets, i);
      targets' := targets[..i] + targets[i + 1..];
      k' := if k + 1 < |ts| then k + 2 else k + 1;
    } else {
      WalkKeeps(ts, f, k, targets, i);
      targets', k' := targets, k + 1;
    }
    DealtStep(before, s0, hit, k, k');
    DealtSeen(ts, s0, hit, k');
  }

  /** One iteration of the space-bar loop, at list index `i`, which holds original enemy `k`. */
  method VisitEnemy(unit: Unit, ts: seq<Unit>, ghost s0: seq<View>, ghost f: seq<Fate>, ghost hit: seq<View>,
                    targets: seq<Unit>, i: int, ghost k: int) returns (targets': seq<Unit>, ghost k': int)
    requires |unit.attackTypes| > 0 && unit !in ts && Distinct(ts)
    requires Walk(ts, f, k, targets, i) && k < |ts| && BlowsDealt(ts, s0, hit, k)
    requires SpaceFacts(See(unit), s0, f, hit, k)
    requires k + 1 < |ts| ==> SpaceFacts(See(unit), s0, f, hit, k + 1)
    modifies ts
    ensures k < k' && Walk(ts, f, k', targets', i + 1) && BlowsDealt(ts, s0, hit, k')
    ensures See(unit) == old(See(unit))
  {
    WalkLooksAt(ts, f, k, targets, i);
    var enemy := targets[i];
    if Abs(unit.x - enemy.x) <= 1 && Abs(unit.y - enemy.y) <= 1 {
      targets', k' := HitEnemy(unit, ts, s0, f, hit, targets, i, k);
    } else {
      WalkKeeps(ts, f, k, targets, i);
      targets', k' := targets, k + 1;
    }
  }

  /** The `for enemy in self.enemy_units` loop over `ts`, whose units start as `s0`, given the
      fates `f` and blows `hit` the rules assign. */
  method WalkEnemies(unit: Unit, ts: seq<Unit>, ghost s0: seq<View>, ghost f: seq<Fate>, ghost hit: seq<View>)
    returns (targets: seq<Unit>)
    requires |unit.attackTypes| > 0 && unit !in ts && Distinct(ts)
    requires |s0| == |ts| == |f| == |hit|
    requires forall m :: 0 <= m < |ts| ==> See(ts[m]) == s0[m]
    requires forall k :: 0 <= k < |ts| ==> SpaceFacts(See(unit), s0, f, hit, k)
    modifies ts
    ensures targets == Survivors(ts, f)
    ensures forall m :: 0 <= m < |ts| ==> See(ts[m]) == hit[m]
  {
    ghost var a := See(unit);
    targets := ts;
    var i := 0;
    ghost var k := 0;
    WalkStart(ts, f);
    while i < |targets|
      invariant Walk(ts, f, k, targets, i) && BlowsDealt(ts, s0, hit, k)
      invariant See(unit) == a
      decreases |ts| - k
    {
      WalkLooksAt(ts, f, k, targets, i);
      targets, k := VisitEnemy(unit, ts, s0, f, hit, targets, i, k);
      i := i + 1;
    }
    WalkLooksAt(ts, f, k, targets, i);
  }

  lemma {:induction false} SeeSurvivors(us: seq<Unit>, f: seq<Fate>, vs: seq<View>)
    requires |us| == |f| == |vs|
    requires forall m :: 0 <= m < |us| ==> See(us[m]) == vs[m]
    ensures SeeAll(Survivors(us, f)) == Survivors(vs, f)
  {
    SurvivorsAreKept(us, f);
    SurvivorsAreKept(vs, f);
  }

  /** The attack part of the space key: `unit` attacks every adjacent enemy of `ts` the walk
      visits and removes the dead; the list comes back as `targets`. */
  method StrikeAdjacent(unit: Unit, ts: seq<Unit>) returns (targets: seq<Unit>)
    requires |unit.attackTypes| > 0 && unit !in ts && Distinct(ts)
    modifies ts
    ensures Distinct(targets) && forall k :: 0 <= k < |targets| ==> targets[k] in ts
    ensures See(unit) == old(See(unit))
    ensures SeeAll(targets) == SpaceStrike(old(See(unit)), old(SeeAll(ts)))
  {
    ghost var a := See(unit);
    ghost var s0 := SeeAll(ts);
    ghost var f := SpaceFates(a, s0);
    ghost var hit := SpaceBlows(a, s0);
    forall k | 0 <= k < |ts| ensures SpaceFacts(a, s0, f, hit, k) {
      SpaceStepFacts(a, s0, k);
    }
    targets := WalkEnemies(unit, ts, s0, f, hit);
    SeeSurvivors(ts, f, hit);
    SurvivorsOfDistinct(ts, f);
  }

  /** `Unit(x, y, health, power, team, grid)`: a base unit with the default range 1. */
  method Recruit(x: int, y: int, health: int, power: int, team: Units.Team, grid: Grid) returns (u: Unit)
    ensures fresh(u) && Fits(u, grid) && u.team == team && u.kind == Plain
    ensures See(u) == View(x, y, health, false, DefaultProfiles(power, 1))
  {
    u := new Unit(x, y, health, power, team, grid, 1);
  }

  /** Two base units of one team at cells `a` and `b`, as test2.py lists them. */
  method Muster(a: Cell, b: Cell, health: int, power: int, team: Units.Team, grid: Grid) returns (us: seq<Unit>)
    ensures |us| == 2 && Distinct(us) && fresh(us[0]) && fresh(us[1])
    ensures forall k :: 0 <= k < 2 ==> Fits(us[k], grid) && us[k].team == team && us[k].kind == Plain
    ensures SeeAll(us) == [View(a.0, a.1, health, false, DefaultProfiles(power, 1)), View(b.0, b.1, health, false, DefaultProfiles(power, 1))]
  {
    var u0 := Recruit(a.0, a.1, health, power, team, grid);
    var u1 := Recruit(b.0, b.1, health, power, team, grid);
    us := [u0, u1];
  }

  /** The `Game` of test2.py: the two lists of unit objects. */
  class Game {
    var playerUnits: seq<Unit>
    var enemyUnits: seq<Unit>
    const grid: Grid

    /** No unit twice, none on both sides, every unit able to attack and on the board. */
    ghost predicate Wired()
      reads this
    {
      && IsSquare(grid, GridSize)
      && (forall u | u in playerUnits + enemyUnits :: multiset(playerUnits + enemyUnits)[u] == 1)
      && (forall k :: 0 <= k < |playerUnits| ==> Fits(playerUnits[k], grid))
      && (forall k :: 0 <= k < |enemyUnits| ==> Fits(enemyUnits[k], grid))
    }

    /** Neither side holds a unit twice, and each unit is on one side only. */
    lemma Apart()
      requires Wired()
      ensures Distinct(playerUnits) && Distinct(enemyUnits)
      ensures forall k :: 0 <= k < |playerUnits| ==> playerUnits[k] !in enemyUnits
      ensures forall k :: 0 <= k < |enemyUnits| ==> enemyUnits[k] !in playerUnits
    {
      DistinctCounts(playerUnits + enemyUnits);
      DistinctJoin(playerUnits, enemyUnits);
    }

    /** Two base units a side on the game.py board: the players with health 10 and power 2 at
        (0, 0) and (1, 0), the enemies with health 8 and power 1 at (16, 16) and (15, 16), all
        with the default range 1 and unselected. */
    constructor ()
      ensures Wired() && grid == Rules.GameGrid()
      ensures SeeAll(playerUnits) == [View(0, 0, 10, false, DefaultProfiles(2, 1)), View(1, 0, 10, false, DefaultProfiles(2, 1))]
      ensures SeeAll(enemyUnits) == [View(16, 16, 8, false, DefaultProfiles(1, 1)), View(15, 16, 8, false, DefaultProfiles(1, 1))]
      ensures forall k :: 0 <= k < |playerUnits| ==> playerUnits[k].team == Units.Player && playerUnits[k].kind == Plain
      ensures forall k :: 0 <= k < |enemyUnits| ==> enemyUnits[k].team == Units.Enemy && enemyUnits[k].kind == Plain
    {
      Rules.GameGridIsLargeWorld();
      var g := Rules.GameGrid();
      var ps := Muster((0, 0), (1, 0), 10, 2, Units.Player, g);
      var es := Muster((16, 16), (15, 16), 8, 1, Units.Enemy, g);
      DistinctJoin(ps, es);
      DistinctCounts(ps + es);
      playerUnits := ps;
      enemyUnits := es;
      grid := g;
    }

    method SetPlayers(r: seq<Unit>)
      modifies this`playerUnits
      ensures playerUnits == r
    {
      playerUnits := r;
    }

    method SetEnemies(r: seq<Unit>)
      modifies this`enemyUnits
      ensures enemyUnits == r
    {
      enemyUnits := r;
    }

    /** The start of a player unit's turn in `handle_player_turn`: `is_selected = True`. */
    method SelectForTurn(i: int)
      requires Wired() && 0 <= i < |playerUnits|
      modifies playerUnits[i]
      ensures SeeAll(playerUnits) == old(SeeAll(playerUnits))[i := old(See(playerUnits[i])).(selected := true)]
      ensures SeeAll(enemyUnits) == old(SeeAll(enemyUnits))
    {
      Apart();
      MarkOne(playerUnits, i, enemyUnits, true);
    }

    /** One event of player unit `i`'s turn; the lists afterwards are what `PlayerKey` says. */
    method PressKey(i: int, e: Event) returns (acted: bool, quit: bool)
      requires Wired() && 0 <= i < |playerUnits|
      modifies this`enemyUnits, playerUnits[i], enemyUnits
      ensures Wired()
      ensures forall k :: 0 <= k < |enemyUnits| ==> enemyUnits[k] in old(enemyUnits)
      ensures KeyResult(SeeAll(playerUnits), SeeAll(enemyUnits), acted, quit) ==
              PlayerKey(grid, old(SeeAll(playerUnits)), old(SeeAll(enemyUnits)), i, e)
    {
      if e == Close {
        return false, true;
      }
      var (dx, dy) := Arrow(e);
      MovePlayer(i, dx, dy);
      if e == Space {
        SpaceBar(i);
        return true, false;
      }
      return false, false;
    }

    /** `selected_unit.move(dx, dy)`. */
    method MovePlayer(i: int, dx: int, dy: int)
      requires Wired() && 0 <= i < |playerUnits|
      modifies playerUnits[i]
      ensures SeeAll(playerUnits) == Stepped(grid, old(SeeAll(playerUnits)), i, dx, dy)
      ensures SeeAll(enemyUnits) == old(SeeAll(enemyUnits))
    {
      Apart();
      MoveOne(playerUnits, i, enemyUnits, dx, dy);
    }

    /** The space-bar branch: the loop over `enemy_units`, then `is_selected = False`. */
    method SpaceBar(i: int)
      requires Wired() && 0 <= i < |playerUnits|
      modifies this`enemyUnits, enemyUnits, playerUnits[i]
      ensures Wired()
      ensures forall k :: 0 <= k < |enemyUnits| ==> enemyUnits[k] in old(enemyUnits)
      ensures SeeAll(playerUnits) == old(SeeAll(playerUnits))[i := old(See(playerUnits[i])).(selected := false)]
      ensures SeeAll(enemyUnits) == SpaceStrike(old(See(playerUnits[i])), old(SeeAll(enemyUnits)))
    {
      assert SeeAll(playerUnits)[i] == See(playerUnits[i]);
      StrikeFrom(i);
      assert SeeAll(playerUnits)[i] == See(playerUnits[i]);
      Apart();
      MarkOne(playerUnits, i, enemyUnits, false);
    }

    /** The space-bar loop of player unit `i` over `enemy_units`. */
    method StrikeFrom(i: int)
      requires Wired() && 0 <= i < |playerUnits|
      modifies this`enemyUnits, enemyUnits
      ensures Wired()
      ensures forall k :: 0 <= k < |enemyUnits| ==> enemyUnits[k] in old(enemyUnits)
      ensures SeeAll(playerUnits) == old(SeeAll(playerUnits))
      ensures SeeAll(enemyUnits) == SpaceStrike(old(See(playerUnits[i])), old(SeeAll(enemyUnits)))
    {
      Apart();
      ghost var ps := SeeAll(playerUnits);
      var survivors := StrikeAdjacent(playerUnits[i], enemyUnits);
      forall k | 0 <= k < |playerUnits| ensures See(playerUnits[k]) == ps[k] {
      }
      DistinctJoinOfParts(playerUnits, enemyUnits, playerUnits, survivors);
      SetEnemies(survivors);
    }

    /** `handle_enemy_turn`, with `picks[j]` naming the player unit `random.choice` returns for
        enemy `j` (through `Pick`, on the list as it is at that moment). On an empty player list
        `random.choice` fails: the turn stops there with `crashed`. */
    method HandleEnemyTurn(picks: seq<int>) returns (crashed: bool)
      requires Wired() && |picks| == |enemyUnits|
      modifies this`playerUnits, playerUnits, enemyUnits
      ensures Wired()
      ensures var t := EnemyTurn(grid, old(SeeAll(enemyUnits)), old(SeeAll(playerUnits)), picks, |enemyUnits|);
        SeeAll(enemyUnits) == t.enemies && SeeAll(playerUnits) == t.players && crashed == t.crashed
    {
      ghost var es0, ps0 := SeeAll(enemyUnits), SeeAll(playerUnits);
      ghost var ps := playerUnits;
      var j := 0;
      while j < |enemyUnits|
        invariant 0 <= j <= |enemyUnits| && Wired()
        invariant forall k :: 0 <= k < |playerUnits| ==> playerUnits[k] in ps
        invariant var t := EnemyTurn(grid, es0, ps0, picks, j);
          SeeAll(enemyUnits) == t.enemies && SeeAll(playerUnits) == t.players && !t.crashed
      {
        crashed := EnemyIteration(j, picks, es0, ps0, ps);
        if crashed {
          return;
        }
        j := j + 1;
      }
      crashed := false;
    }

    /** Iteration `j` of `handle_enemy_turn`: `random.choice` fails on an empty player list,
        otherwise enemy `j` acts against the player `picks[j]` names. */
    method EnemyIteration(j: int, picks: seq<int>, ghost es0: seq<View>, ghost ps0: seq<View>, ghost ps: seq<Unit>)
      returns (crashed: bool)
      requires Wired() && 0 <= j < |enemyUnits| == |picks| == |es0|
      requires forall k :: 0 <= k < |playerUnits| ==> playerUnits[k] in ps
      requires var t := EnemyTurn(grid, es0, ps0, picks, j);
        SeeAll(enemyUnits) == t.enemies && SeeAll(playerUnits) == t.players && !t.crashed
      modifies this`playerUnits, ps, enemyUnits
      ensures Wired()
      ensures forall k :: 0 <= k < |playerUnits| ==> playerUnits[k] in ps
      ensures var t := EnemyTurn(grid, es0, ps0, picks, j + 1);
        SeeAll(enemyUnits) == t.enemies && SeeAll(playerUnits) == t.players && crashed == t.crashed
      ensures crashed ==> EnemyTurn(grid, es0, ps0, picks, |es0|) == EnemyTurn(grid, es0, ps0, picks, j + 1)
    {
      if |playerUnits| == 0 {
        CrashPersists(grid, es0, ps0, picks, j + 1, |es0|);
        return true;
      }
      EnemyActs(j, Pick(picks[j], |playerUnits|));
      return false;
    }

    /** Enemy `j` against player `i`: step toward it, then attack it when adjacent. */
    method EnemyActs(j: int, i: int)
      requires Wired() && 0 <= j < |enemyUnits| && 0 <= i < |playerUnits|
      modifies this`playerUnits, enemyUnits[j], playerUnits[i]
      ensures Wired()
      ensures forall k :: 0 <= k < |playerUnits| ==> playerUnits[k] in old(playerUnits)
      ensures var r := EnemyAct(grid, old(See(enemyUnits[j])), old(SeeAll(playerUnits)), i);
        SeeAll(enemyUnits) == old(SeeAll(enemyUnits))[j := r.0] && SeeAll(playerUnits) == r.1
    {
      assert SeeAll(playerUnits)[i] == See(playerUnits[i]);
      ChaseTarget(j, i);
      assert SeeAll(enemyUnits)[j] == See(enemyUnits[j]);
      HitPlayer(j, i);
    }

    /** Enemy `j` steps toward player `i` by the sign of the difference on each axis. */
    method ChaseTarget(j: int, i: int)
      requires Wired() && 0 <= j < |enemyUnits| && 0 <= i < |playerUnits|
      modifies enemyUnits[j]
      ensures SeeAll(enemyUnits) == old(SeeAll(enemyUnits))[j := Chase(grid, old(See(enemyUnits[j])), old(See(playerUnits[i])))]
      ensures SeeAll(playerUnits) == old(SeeAll(playerUnits))
    {
      var enemy := enemyUnits[j];
      var target := playerUnits[i];
      var dx := if enemy.x < target.x then 1 else if enemy.x > target.x then -1 else 0;
      var dy := if enemy.y < target.y then 1 else if enemy.y > target.y then -1 else 0;
      Apart();
      MoveOne(enemyUnits, j, playerUnits, dx, dy);
    }

    /** When adjacent, enemy `j` attacks player `i`. */
    method HitPlayer(j: int, i: int)
      requires Wired() && 0 <= j < |enemyUnits| && 0 <= i < |playerUnits|
      modifies this`playerUnits, playerUnits[i]
      ensures Wired()
      ensures forall k :: 0 <= k < |playerUnits| ==> playerUnits[k] in old(playerUnits)
      ensures SeeAll(enemyUnits) == old(SeeAll(enemyUnits))
      ensures SeeAll(playerUnits) == Attacked(old(See(enemyUnits[j])), old(SeeAll(playerUnits)), i)
    {
      var enemy, target := enemyUnits[j], playerUnits[i];
      ghost var e0, ps0 := See(enemy), SeeAll(playerUnits);
      if Abs(enemy.x - target.x) <= 1 && Abs(enemy.y - target.y) <= 1 {
        assert Adjacent(e0, ps0[i]);
        AttackPlayer(j, i);
      } else {
        assert Attacked(e0, ps0, i) == ps0;
      }
    }

    /** `enemy.attack(target)`, and `player_units.remove(target)` when that leaves it with no
        health. */
    method AttackPlayer(j: int, i: int)
      requires Wired() && 0 <= j < |enemyUnits| && 0 <= i < |playerUnits|
      requires Adjacent(See(enemyUnits[j]), See(playerUnits[i]))
      modifies this`playerUnits, playerUnits[i]
      ensures Wired()
      ensures forall k :: 0 <= k < |playerUnits| ==> playerUnits[k] in old(playerUnits)
      ensures SeeAll(enemyUnits) == old(SeeAll(enemyUnits))
      ensures SeeAll(playerUnits) == Attacked(old(See(enemyUnits[j])), old(SeeAll(playerUnits)), i)
    {
      Apart();
      var target := playerUnits[i];
      assert SeeAll(playerUnits)[i] == See(target);
      StrikeOne(enemyUnits[j], target, playerUnits, i, enemyUnits);
      assert SeeAll(playerUnits)[i] == See(target);
      if target.health <= 0 {
        ghost var hit := SeeAll(playerUnits);
        WithoutUpdated(old(SeeAll(playerUnits)), i, hit[i]);
        assert hit == old(SeeAll(playerUnits))[i := hit[i]];
        RemovePlayer(i);
      }
    }

    /** `player_units.remove(target)` of the unit at index `i`. */
    method RemovePlayer(i: int)
      requires Wired() && 0 <= i < |playerUnits|
      modifies this`playerUnits
      ensures Wired()
      ensures forall k :: 0 <= k < |playerUnits| ==> playerUnits[k] in old(playerUnits)
      ensures SeeAll(playerUnits) == Without(old(SeeAll(playerUnits)), i)
    {
      Apart();
      DropOne(playerUnits, i);
      DistinctJoinOfParts(playerUnits, enemyUnits, Without(playerUnits, i), enemyUnits);
      SetPlayers(Without(playerUnits, i));
    }
  }
}
