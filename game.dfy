/** The `Game` object of game.py: two rosters of unit objects and the turn in progress, driven one
    key event at a time. Every method is proved against the rules on values: a snapshot of the
    objects after the call is the rule applied to the snapshot before it. */
module Game {
  import opened Terrain
  import opened Geometry
  import opened Units
  import opened Removal
  import opened Protocol
  import opened Rules

  /** The value a unit object currently holds. */
  function Snap(u: Unit): UnitState
    reads u
  {
    UnitState(u.variant, u.team, u.x, u.y, u.health, u.isSelected)
  }

  function SnapAll(us: seq<Unit>): (r: seq<UnitState>)
    reads us
    ensures |r| == |us| && forall k :: 0 <= k < |us| ==> r[k] == Snap(us[k])
  {
    seq(|us|, k reads us requires 0 <= k < |us| => Snap(us[k]))
  }

  /** The snapshot of the surviving objects is the survivors of the snapshots. */
  lemma {:induction false} SnapSurvivors(us: seq<Unit>, f: seq<Fate>, ss: seq<UnitState>)
    requires |us| == |f| == |ss|
    requires forall m :: 0 <= m < |us| ==> Snap(us[m]) == ss[m]
    ensures SnapAll(Survivors(us, f)) == Survivors(ss, f)
  {
    SurvivorsAreKept(us, f);
    SurvivorsAreKept(ss, f);
  }

  /** Three units of one team: `select_units` builds each at (0, 0) at full health, and the
      placement loop of `main_menu` moves each onto its starting cell. */
  method NewTeam(vs: seq<Variant>, t: Team, starts: seq<Cell>) returns (us: seq<Unit>)
    requires |vs| == 3 && |starts| == 3
    ensures |us| == 3 && Distinct(us)
    ensures forall k :: 0 <= k < 3 ==> fresh(us[k]) && us[k].Valid() && us[k].grid == GameGrid() && us[k].gridSize == N
    ensures SnapAll(us) == StartingRoster(vs, t, starts)
  {
    var u0 := Place(vs[0], t, starts[0]);
    var u1 := Place(vs[1], t, starts[1]);
    var u2 := Place(vs[2], t, starts[2]);
    us := [u0, u1, u2];
    assert SnapAll(us) == StartingRoster(vs, t, starts);
  }

  /** One unit of `vs[k]`'s class, built at (0, 0) and then moved onto its starting cell. */
  method Place(v: Variant, t: Team, start: Cell) returns (u: Unit)
    ensures fresh(u) && Fits(u)
    ensures Snap(u) == UnitState(v, t, start.0, start.1, StatsOf(v).health, false)
  {
    GameGridIsLargeWorld();
    u := new Unit(0, 0, v, t, GameGrid(), N);
    u.x, u.y := start.0, start.1;
  }

  /** A unit built for this game: its own variant's constants, on the game's board. */
  ghost predicate Fits(u: Unit) {
    u.Valid() && u.grid == GameGrid() && u.gridSize == N
  }

  /** The object structure of the two rosters: no unit twice, no unit on both teams, every unit
      built for this game. */
  ghost predicate WiredRosters(ps: seq<Unit>, es: seq<Unit>) {
    && Distinct(ps) && Distinct(es)
    && (forall a, b :: 0 <= a < |ps| && 0 <= b < |es| ==> ps[a] != es[b])
    && (forall k :: 0 <= k < |ps| ==> Fits(ps[k]))
    && (forall k :: 0 <= k < |es| ==> Fits(es[k]))
  }

  /** Taking units out of the rosters keeps their structure. */
  lemma {:induction false} KeepWired(ps: seq<Unit>, es: seq<Unit>, ps': seq<Unit>, es': seq<Unit>)
    requires WiredRosters(ps, es) && Distinct(ps') && Distinct(es')
    requires forall k :: 0 <= k < |ps'| ==> ps'[k] in ps
    requires forall k :: 0 <= k < |es'| ==> es'[k] in es
    ensures WiredRosters(ps', es')
  {
    forall a, b | 0 <= a < |ps'| && 0 <= b < |es'| ensures ps'[a] != es'[b] {
      assert ps'[a] in ps && es'[b] in es;
      var a0 :| 0 <= a0 < |ps| && ps[a0] == ps'[a];
      var b0 :| 0 <= b0 < |es| && es[b0] == es'[b];
    }
    forall k | 0 <= k < |ps'| ensures Fits(ps'[k]) {
      assert ps'[k] in ps;
      var k0 :| 0 <= k0 < |ps| && ps[k0] == ps'[k];
    }
    forall k | 0 <= k < |es'| ensures Fits(es'[k]) {
      assert es'[k] in es;
      var k0 :| 0 <= k0 < |es| && es[k0] == es'[k];
    }
  }

  /** What the walk needs to know about original index `k` of the targets: it is struck when it is
      visited and stands in the zone, it is never visited right after a removal, a struck target
      loses the blow, and it is removed exactly when that leaves it with no health. */
  ghost predicate StepFacts(a: UnitState, at: AttackIndex, cells: set<Cell>, s0: seq<UnitState>, f: seq<Fate>, hit: seq<UnitState>, k: int) {
    && |s0| == |f| == |hit| && 0 <= k < |s0|
    && ((k == 0 || f[k - 1] != Killed) ==> (f[k] != Untouched <==> (s0[k].x, s0[k].y) in cells))
    && (k > 0 && f[k - 1] == Killed ==> f[k] == Untouched)
    && hit[k] == (if f[k] != Untouched then s0[k].(health := s0[k].health - Blow(a, at, s0[k])) else s0[k])
    && (f[k] == Killed <==> f[k] != Untouched && hit[k].health <= 0.0)
  }

  /** The walk's fates and the blows it deals meet those facts at every index. */
  lemma {:induction false} StrikeStepFacts(a: UnitState, at: AttackIndex, cells: set<Cell>, s0: seq<UnitState>, k: int)
    requires 0 <= k < |s0|
    ensures StepFacts(a, at, cells, s0, StrikeFates(a, at, cells, s0), AfterBlows(a, at, cells, s0), k)
  {
    var zone, lethal := InZone(cells, s0), Lethal(a, at, s0);
    KilledMeansLethal(zone, lethal, k);
    VisitedIff(zone, lethal, k);
  }

  /** `unit.attack(target, attack_type)` on element `k` of the target list: the target loses the
      blow, every other unit of the list and the attacker are left as they were. */
  method StrikeTarget(unit: Unit, target: Unit, attackType: AttackIndex, ghost ts: seq<Unit>, ghost k: int)
    requires unit.Valid() && 0 <= k < |ts| && ts[k] == target && unit !in ts && Distinct(ts)
    modifies target
    ensures Snap(ts[k]) == old(Snap(ts[k])).(health := old(ts[k].health) - Blow(old(Snap(unit)), attackType, old(Snap(ts[k]))))
    ensures Snap(unit) == old(Snap(unit))
    ensures SnapAll(ts) == old(SnapAll(ts))[k := Snap(ts[k])]
  {
    unit.Attack(target, attackType);
    forall m | 0 <= m < |ts| && m != k ensures Snap(ts[m]) == old(Snap(ts[m])) {
      assert ts[m] != ts[k];
    }
  }

  /** `is_selected = b` on unit `i` of `us`: only that unit's snapshot changes, and nothing in
      `others`, a list it is not in. */
  method Mark(us: seq<Unit>, i: int, others: seq<Unit>, b: bool)
    requires 0 <= i < |us| && Distinct(us) && us[i] !in others
    modifies us[i]
    ensures SnapAll(us) == old(SnapAll(us))[i := old(Snap(us[i])).(isSelected := b)]
    ensures SnapAll(others) == old(SnapAll(others))
  {
    ghost var r, o := SnapAll(us), SnapAll(others);
    us[i].isSelected := b;
    forall k | 0 <= k < |us| && k != i ensures SnapAll(us)[k] == r[k] {
      assert us[k] != us[i];
    }
    forall k | 0 <= k < |others| ensures SnapAll(others)[k] == o[k] {
      assert others[k] != us[i];
    }
  }

  /** The walk's state before original index `k`, on values: the first `k` units as their blows
      left them, the others as they were. */
  ghost predicate Dealt(now: seq<UnitState>, s0: seq<UnitState>, hit: seq<UnitState>, k: int) {
    |now| == |s0| == |hit| && forall m :: 0 <= m < |now| ==> now[m] == (if m < k then hit[m] else s0[m])
  }

  ghost predicate BlowsDealt(ts: seq<Unit>, s0: seq<UnitState>, hit: seq<UnitState>, k: int)
    reads ts
  {
    |s0| == |ts| == |hit| && forall m :: 0 <= m < |ts| ==> Snap(ts[m]) == (if m < k then hit[m] else s0[m])
  }

  /** Dealing the blow at `k` moves the walk on by one index, or by two when the next unit is
      skipped and keeps its state. */
  lemma DealtStep(now: seq<UnitState>, s0: seq<UnitState>, hit: seq<UnitState>, k: int, k': int)
    requires Dealt(now, s0, hit, k) && 0 <= k < |now| && k < k' <= k + 2 && k' <= |now|
    requires k' == k + 2 ==> hit[k + 1] == s0[k + 1]
    ensures Dealt(now[k := hit[k]], s0, hit, k')
  {
  }

  /** The loop body on a target standing in the zone: attack it, and remove it from the list when
      the blow leaves it with no health. */
  method HitTarget(unit: Unit, ts: seq<Unit>, at: AttackIndex,
                   ghost s0: seq<UnitState>, ghost f: seq<Fate>, ghost hit: seq<UnitState>,
                   targets: seq<Unit>, i: int, ghost k: int) returns (targets': seq<Unit>, ghost k': int)
    requires unit.Valid() && unit !in ts && Distinct(ts)
    requires Walk(ts, f, k, targets, i) && k < |ts| && BlowsDealt(ts, s0, hit, k)
    requires 0 <= i < |targets| && targets[i] == ts[k] && f[k] != Untouched
    requires hit[k] == s0[k].(health := s0[k].health - Blow(Snap(unit), at, s0[k]))
    requires f[k] == Killed <==> hit[k].health <= 0.0
    requires f[k] == Killed && k + 1 < |ts| ==> f[k + 1] == Untouched && hit[k + 1] == s0[k + 1]
    modifies ts
    ensures k < k' && Walk(ts, f, k', targets', i + 1) && BlowsDealt(ts, s0, hit, k')
    ensures Snap(unit) == old(Snap(unit))
  {
    var target := targets[i];
    ghost var before := SnapAll(ts);
    assert Dealt(before, s0, hit, k);
    StrikeTarget(unit, target, at, ts, k);
    assert Snap(ts[k]) == hit[k];
    if target.health <= 0.0 {
      WalkRemoves(ts, f, k, targets, i);
      targets' := targets[..i] + targets[i + 1..];
      k' := if k + 1 < |ts| then k + 2 else k + 1;
    } else {
      WalkKeeps(ts, f, k, targets, i);
      targets', k' := targets, k + 1;
    }
    DealtStep(before, s0, hit, k, k');
    assert Dealt(SnapAll(ts), s0, hit, k');
  }

  /** One iteration of the `for` loop of `execute_attack`, at list index `i`, which holds original
      element `k`: attack it when it stands in the zone and remove it when the blow is lethal. */
  method VisitTarget(unit: Unit, cells: set<Cell>, ts: seq<Unit>, at: AttackIndex,
                     ghost s0: seq<UnitState>, ghost f: seq<Fate>, ghost hit: seq<UnitState>,
                     targets: seq<Unit>, i: int, ghost k: int) returns (targets': seq<Unit>, ghost k': int)
    requires unit.Valid() && unit !in ts && Distinct(ts)
    requires Walk(ts, f, k, targets, i) && k < |ts| && BlowsDealt(ts, s0, hit, k)
    requires StepFacts(Snap(unit), at, cells, s0, f, hit, k)
    requires k + 1 < |ts| ==> StepFacts(Snap(unit), at, cells, s0, f, hit, k + 1)
    modifies ts
    ensures k < k' && Walk(ts, f, k', targets', i + 1) && BlowsDealt(ts, s0, hit, k')
    ensures Snap(unit) == old(Snap(unit))
  {
    WalkLooksAt(ts, f, k, targets, i);
    var target := targets[i];
    if (target.x, target.y) in cells {
      targets', k' := HitTarget(unit, ts, at, s0, f, hit, targets, i, k);
    } else {
      WalkKeeps(ts, f, k, targets, i);
      targets', k' := targets, k + 1;
    }
  }

  /** The `for` loop of `execute_attack` over the list `ts`, whose units start as `s0`, given the
      fates `f` and blows `hit` the rules assign: the list ends as the survivors and every unit
      of it as its blow left it. */
  method WalkTargets(unit: Unit, cells: set<Cell>, ts: seq<Unit>, at: AttackIndex,
                     ghost s0: seq<UnitState>, ghost f: seq<Fate>, ghost hit: seq<UnitState>) returns (targets: seq<Unit>)
    requires unit.Valid() && unit !in ts && Distinct(ts)
    requires |s0| == |ts| == |f| == |hit|
    requires forall m :: 0 <= m < |ts| ==> Snap(ts[m]) == s0[m]
    requires forall k :: 0 <= k < |ts| ==> StepFacts(Snap(unit), at, cells, s0, f, hit, k)
    modifies ts
    ensures targets == Survivors(ts, f)
    ensures forall m :: 0 <= m < |ts| ==> Snap(ts[m]) == hit[m]
  {
    ghost var a := Snap(unit);
    targets := ts;
    var i := 0;
    ghost var k := 0;
    WalkStart(ts, f);
    while i < |targets|
      invariant Walk(ts, f, k, targets, i) && BlowsDealt(ts, s0, hit, k)
      invariant Snap(unit) == a
      decreases |ts| - k
    {
      WalkLooksAt(ts, f, k, targets, i);
      targets, k := VisitTarget(unit, cells, ts, at, s0, f, hit, targets, i, k);
      i := i + 1;
    }
    WalkLooksAt(ts, f, k, targets, i);
  }

  /** `execute_attack(unit, attackable_cells, target_units, attack_type)`: a `for` loop over the
      opposing list that attacks every target standing in the zone and removes it from the list as
      soon as its health is at most 0. The list comes back as `targets`. */
  method ExecuteAttack(unit: Unit, attackableCells: set<Cell>, ts: seq<Unit>, attackType: AttackIndex) returns (targets: seq<Unit>)
    requires unit.Valid() && unit !in ts && Distinct(ts)
    modifies ts
    ensures Distinct(targets) && forall k :: 0 <= k < |targets| ==> targets[k] in ts
    ensures SnapAll(targets) == StrikeTargets(old(Snap(unit)), attackType, attackableCells, old(SnapAll(ts)))
  {
    ghost var a := Snap(unit);
    ghost var s0 := SnapAll(ts);
    ghost var f := StrikeFates(a, attackType, attackableCells, s0);
    ghost var hit := AfterBlows(a, attackType, attackableCells, s0);
    forall k | 0 <= k < |ts| ensures StepFacts(a, attackType, attackableCells, s0, f, hit, k) {
      StrikeStepFacts(a, attackType, attackableCells, s0, k);
    }
    targets := WalkTargets(unit, attackableCells, ts, attackType, s0, f, hit);
    SnapSurvivors(ts, f, hit);
    SurvivorsOfDistinct(ts, f);
  }

  /** The acting unit `own[i]` computes its zone and runs `execute_attack` on the other team's
      list `opp`: its own team is left as it was, and the survivors are what the rules say. */
  method StrikeSide(at: AttackIndex, own: seq<Unit>, opp: seq<Unit>, i: int) returns (survivors: seq<Unit>)
    requires 0 <= i < |own| && Fits(own[i]) && Distinct(opp)
    requires forall a, b :: 0 <= a < |own| && 0 <= b < |opp| ==> own[a] != opp[b]
    modifies opp
    ensures SnapAll(own) == old(SnapAll(own))
    ensures Distinct(survivors) && forall k :: 0 <= k < |survivors| ==> survivors[k] in opp
    ensures SnapAll(survivors) == StrikeTargets(old(Snap(own[i])), at, ZoneFor(old(Snap(own[i])), at), old(SnapAll(opp)))
  {
    var unit := own[i];
    forall b | 0 <= b < |opp| ensures opp[b] != unit {
    }
    var cells := unit.GetAttackableCells(at);
    survivors := ExecuteAttack(unit, cells, opp, at);
    forall k | 0 <= k < |own| ensures Snap(own[k]) == old(Snap(own[k])) {
      assert own[k] !in opp by {
        forall b | 0 <= b < |opp| ensures opp[b] != own[k] {
        }
      }
    }
  }

  class Game {
    var playerUnits: seq<Unit>
    var enemyUnits: seq<Unit>
    var side: Team
    var current: int
    var phase: Phase
    var status: Status

    function RosterOf(t: Team): seq<Unit>
      reads this
    {
      if t == Player then playerUnits else enemyUnits
    }

    function Snapshot(): GameState
      reads this, playerUnits, enemyUnits
    {
      GameState(SnapAll(playerUnits), SnapAll(enemyUnits), side, current, phase, status)
    }

    /** The object structure: no unit twice, no unit on both teams, every unit playing the
        variant it was built as on the game's board. */
    ghost predicate Wired()
      reads this`playerUnits, this`enemyUnits
    {
      WiredRosters(playerUnits, enemyUnits)
    }

    ghost predicate Valid()
      reads this, playerUnits, enemyUnits
    {
      Wired() && Inv(Snapshot())
    }

    /** `main_menu`: the two teams built by `select_units`, placed on their starting cells, then
        `start_game`'s first round check. */
    constructor (pv: seq<Variant>, ev: seq<Variant>)
      requires |pv| == 3 && |ev| == 3
      ensures Valid() && Snapshot() == InitialState(pv, ev)
    {
      var ps := NewTeam(pv, Player, PlayerStart);
      ghost var sp := SnapAll(ps);
      var es := NewTeam(ev, Enemy, EnemyStart);
      assert SnapAll(ps) == sp;
      assert WiredRosters(ps, es);
      playerUnits := ps;
      enemyUnits := es;
      side, current, phase, status := Player, 0, Attacking, Playing;
      new;
      assert Snapshot() == GameState(StartingRoster(pv, Player, PlayerStart), StartingRoster(ev, Enemy, EnemyStart), Player, 0, Attacking, Playing);
      StartRound();
      InitialStateOk(pv, ev);
      assert Snapshot() == InitialState(pv, ev);
    }

    /** A unit of one team is not in the other team's list, and was built for this game. */
    lemma OnOneSide(t: Team, i: int)
      requires Wired() && 0 <= i < |RosterOf(t)|
      ensures RosterOf(t)[i] !in RosterOf(Opponent(t)) && Fits(RosterOf(t)[i])
    {
      if t == Player {
        forall b | 0 <= b < |enemyUnits| ensures enemyUnits[b] != playerUnits[i] {
        }
      } else {
        forall a | 0 <= a < |playerUnits| ensures playerUnits[a] != enemyUnits[i] {
        }
      }
    }

    /** Unit `i` of team `t` begins its turn: `is_selected = True`,
        `remaining_moves = movement_speed`. */
    method BeginTurn(t: Team, i: int)
      requires Wired() && 0 <= i < |RosterOf(t)|
      modifies this`side, this`current, this`phase, RosterOf(t)[i]
      ensures playerUnits == old(playerUnits) && enemyUnits == old(enemyUnits)
      ensures Snapshot() == Begin(old(Snapshot()), t, i)
    {
      var u := RosterOf(t)[i];
      OnOneSide(t, i);
      assert u.movementSpeed == StatsOf(u.variant).speed;
      MarkUnit(t, i, true);
      SetTurn(t, i, StartPhase(u.movementSpeed));
    }

    /** `is_selected = b` on unit `i` of team `t`. */
    method MarkUnit(t: Team, i: int, b: bool)
      requires Wired() && 0 <= i < |RosterOf(t)|
      modifies RosterOf(t)[i]
      ensures Snap(RosterOf(t)[i]).variant == old(Snap(RosterOf(t)[i])).variant
      ensures var s := old(Snapshot()); var r := Roster(s, t);
        Snapshot() == WithRoster(s, t, r[i := r[i].(isSelected := b)])
    {
      OnOneSide(t, i);
      ghost var s := Snapshot();
      Mark(RosterOf(t), i, RosterOf(Opponent(t)), b);
      assert Snapshot() == WithRoster(s, t, Roster(s, t)[i := Roster(s, t)[i].(isSelected := b)]);
    }

    /** The unit `i` of team `t` acts next, in phase `p`. */
    method SetTurn(t: Team, i: int, p: Phase)
      modifies this`side, this`current, this`phase
      ensures playerUnits == old(playerUnits) && enemyUnits == old(enemyUnits)
      ensures Snapshot() == old(Snapshot()).(side := t, current := i, phase := p)
    {
      side, current, phase := t, i, p;
    }

    /** The check at the top of `start_game`'s loop. */
    method StartRound()
      requires Wired()
      modifies this`side, this`current, this`phase, this`status, playerUnits, enemyUnits
      ensures playerUnits == old(playerUnits) && enemyUnits == old(enemyUnits)
      ensures Snapshot() == RoundStart(old(Snapshot()))
    {
      if |playerUnits| == 0 {
        status := Over(Enemy);
      } else if |enemyUnits| == 0 {
        status := Over(Player);
      } else {
        BeginTurn(Player, 0);
      }
    }

    /** The `for` loops of `start_game` move on to the next unit. */
    method NextUnit()
      requires Wired()
      modifies this`side, this`current, this`phase, this`status, playerUnits, enemyUnits
      ensures playerUnits == old(playerUnits) && enemyUnits == old(enemyUnits)
      ensures Snapshot() == Advance(old(Snapshot()))
    {
      if 0 <= current + 1 < |RosterOf(side)| {
        BeginTurn(side, current + 1);
      } else {
        NextTeam();
      }
    }

    /** Past the last unit of a team: the enemy's first unit after the player's last, otherwise
        a new round. */
    method NextTeam()
      requires Wired()
      modifies this`side, this`current, this`phase, this`status, playerUnits, enemyUnits
      ensures playerUnits == old(playerUnits) && enemyUnits == old(enemyUnits)
      ensures var s := old(Snapshot());
        Snapshot() == if s.side == Player && |s.enemies| > 0 then Begin(s, Enemy, 0) else RoundStart(s)
    {
      if side == Player && |enemyUnits| > 0 {
        BeginTurn(Enemy, 0);
      } else {
        StartRound();
      }
    }

    /** The acting unit's turn is over: `is_selected = False`, then the next unit. */
    method FinishTurn()
      requires Wired() && 0 <= current < |RosterOf(side)|
      modifies this`side, this`current, this`phase, this`status, playerUnits, enemyUnits
      ensures playerUnits == old(playerUnits) && enemyUnits == old(enemyUnits)
      ensures Snapshot() == EndTurn(old(Snapshot()))
    {
      MarkUnit(side, current, false);
      NextUnit();
    }

    /** `unit.move(dx, dy)` for the acting unit. */
    method MoveActing(dx: int, dy: int)
      requires Wired() && 0 <= current < |RosterOf(side)|
      modifies RosterOf(side)[current]
      ensures Snapshot() == MoveActor(old(Snapshot()), dx, dy)
    {
      var u := RosterOf(side)[current];
      OnOneSide(side, current);
      ghost var s := Snapshot();
      ghost var r := SnapAll(RosterOf(side));
      ghost var o := SnapAll(RosterOf(Opponent(side)));
      assert r == Roster(s, side) && r[current] == Snap(u);
      u.Move(dx, dy);
      forall k | 0 <= k < |r| && k != current ensures SnapAll(RosterOf(side))[k] == r[k] {
        assert RosterOf(side)[k] != u;
      }
      GameGridIsLargeWorld();
      ghost var b := MoveResult(u.variant, GameGrid(), N, Body(r[current].x, r[current].y, r[current].health), MaxHealth(r[current]), dx, dy);
      assert Snap(u) == r[current].(x := b.x, y := b.y, health := b.health);
      assert SnapAll(RosterOf(side)) == r[current := Snap(u)];
      assert SnapAll(RosterOf(Opponent(side))) == o;
    }

    /** `unit.heal()` for the acting wizard. */
    method HealActing()
      requires Wired() && 0 <= current < |RosterOf(side)| && RosterOf(side)[current].variant == Wizard
      modifies RosterOf(side)[current]
      ensures Snapshot() == HealActor(old(Snapshot()))
    {
      var u := RosterOf(side)[current];
      OnOneSide(side, current);
      ghost var s := Snapshot();
      ghost var r := SnapAll(RosterOf(side));
      ghost var o := SnapAll(RosterOf(Opponent(side)));
      assert r == Roster(s, side) && r[current] == Snap(u);
      u.Heal();
      forall k | 0 <= k < |r| && k != current ensures SnapAll(RosterOf(side))[k] == r[k] {
        assert RosterOf(side)[k] != u;
      }
      assert Snap(u) == r[current].(health := Healed(r[current].health, MaxHealth(r[current])));
      assert SnapAll(RosterOf(side)) == r[current := Snap(u)];
      assert SnapAll(RosterOf(Opponent(side))) == o;
    }

    /** Team `t`'s list becomes `r`; no unit changes. */
    method SetRoster(t: Team, r: seq<Unit>)
      modifies this`playerUnits, this`enemyUnits
      ensures RosterOf(t) == r && RosterOf(Opponent(t)) == old(RosterOf(Opponent(t)))
      ensures Snapshot() == WithRoster(old(Snapshot()), t, old(SnapAll(r)))
    {
      if t == Player {
        playerUnits := r;
      } else {
        enemyUnits := r;
      }
    }

    /** Keys 1 and 2: the acting unit's attack zone, then `execute_attack` on the other team's
        list, which is left holding the survivors. */
    method StrikeActing(at: AttackIndex)
      requires Wired() && 0 <= current < |RosterOf(side)|
      modifies this`playerUnits, this`enemyUnits, RosterOf(Opponent(side))
      ensures Wired() && RosterOf(side) == old(RosterOf(side))
      ensures forall k :: 0 <= k < |playerUnits| ==> playerUnits[k] in old(playerUnits)
      ensures forall k :: 0 <= k < |enemyUnits| ==> enemyUnits[k] in old(enemyUnits)
      ensures Snapshot() == StrikeOpponents(old(Snapshot()), at)
    {
      if side == Player {
        StrikeEnemies(at);
      } else {
        StrikePlayers(at);
      }
    }

    /** A player's unit attacks: the enemy list is left holding the survivors. */
    method StrikeEnemies(at: AttackIndex)
      requires Wired() && side == Player && 0 <= current < |playerUnits|
      modifies this`playerUnits, this`enemyUnits, enemyUnits
      ensures Wired() && RosterOf(side) == old(RosterOf(side))
      ensures forall k :: 0 <= k < |playerUnits| ==> playerUnits[k] in old(playerUnits)
      ensures forall k :: 0 <= k < |enemyUnits| ==> enemyUnits[k] in old(enemyUnits)
      ensures Snapshot() == StrikeOpponents(old(Snapshot()), at)
    {
      var survivors := StrikeSide(at, playerUnits, enemyUnits, current);
      KeepWired(playerUnits, enemyUnits, playerUnits, survivors);
      SetRoster(Enemy, survivors);
    }

    /** An enemy unit attacks: the player's list is left holding the survivors. */
    method StrikePlayers(at: AttackIndex)
      requires Wired() && side == Enemy && 0 <= current < |enemyUnits|
      modifies this`playerUnits, this`enemyUnits, playerUnits
      ensures Wired() && RosterOf(side) == old(RosterOf(side))
      ensures forall k :: 0 <= k < |playerUnits| ==> playerUnits[k] in old(playerUnits)
      ensures forall k :: 0 <= k < |enemyUnits| ==> enemyUnits[k] in old(enemyUnits)
      ensures Snapshot() == StrikeOpponents(old(Snapshot()), at)
    {
      var survivors := StrikeSide(at, enemyUnits, playerUnits, current);
      KeepWired(playerUnits, enemyUnits, survivors, enemyUnits);
      SetRoster(Player, survivors);
    }

    /** What the acting unit does in answer to one event. */
    method Act(act: Action)
      requires Wired() && 0 <= current < |RosterOf(side)|
      requires act == HealSelf ==> RosterOf(side)[current].variant == Wizard
      modifies this`playerUnits, this`enemyUnits, playerUnits, enemyUnits
      ensures Wired() && RosterOf(side) == old(RosterOf(side))
      ensures forall k :: 0 <= k < |playerUnits| ==> playerUnits[k] in old(playerUnits)
      ensures forall k :: 0 <= k < |enemyUnits| ==> enemyUnits[k] in old(enemyUnits)
      ensures Snapshot() == Perform(old(Snapshot()), act)
    {
      match act {
        case NoAction =>
        case MoveBy(dx, dy) => MoveActing(dx, dy);
        case Strike(at) => StrikeActing(at);
        case HealSelf => HealActing();
      }
    }

    /** The acting unit's phase becomes `p`. */
    method SetPhase(p: Phase)
      modifies this`phase
      ensures playerUnits == old(playerUnits) && enemyUnits == old(enemyUnits)
      ensures old(Wired()) ==> Wired()
      ensures Snapshot() == old(Snapshot()).(phase := p)
    {
      phase := p;
    }

    /** The game's status becomes `st`. */
    method SetStatus(st: Status)
      modifies this`status
      ensures Snapshot() == old(Snapshot()).(status := st)
    {
      status := st;
    }

    /** The acting unit answers one event: the `l` key's guard and the action; the new phase is
        returned for the caller to enter. */
    method RespondTo(e: Event) returns (p: Phase)
      requires Wired() && 0 <= current < |RosterOf(side)|
      modifies this`playerUnits, this`enemyUnits, playerUnits, enemyUnits
      ensures Wired() && 0 <= current < |RosterOf(side)|
      ensures forall k :: 0 <= k < |playerUnits| ==> playerUnits[k] in old(playerUnits)
      ensures forall k :: 0 <= k < |enemyUnits| ==> enemyUnits[k] in old(enemyUnits)
      ensures Snapshot().(phase := p) == Respond(old(Snapshot()), e)
    {
      var act;
      p, act := Decide(e);
      Act(act);
    }

    /** What the acting unit does about `e`, and its next phase; the `l` key is honoured only for a
        wizard below its maximum health. */
    method Decide(e: Event) returns (p: Phase, act: Action)
      requires Wired() && 0 <= current < |RosterOf(side)|
      ensures (p, act) == Next(phase, e, CanHeal(Roster(Snapshot(), side)[current]))
      ensures act == HealSelf ==> RosterOf(side)[current].variant == Wizard
    {
      var unit := RosterOf(side)[current];
      OnOneSide(side, current);
      var canHeal := unit.variant == Wizard && unit.health < unit.maxHealth;
      assert canHeal == CanHeal(Roster(Snapshot(), side)[current]);
      p, act := Next(phase, e, canHeal).0, Next(phase, e, canHeal).1;
      NextCases(phase, e, canHeal);
    }

    /** One key event for the acting unit, the invariant aside. */
    method Play(e: Event)
      requires Wired() && (status == Playing ==> 0 <= current < |RosterOf(side)|)
      modifies this, playerUnits, enemyUnits
      ensures Wired()
      ensures Snapshot() == GameStep(old(Snapshot()), e)
    {
      if status != Playing {
        return;
      }
      ghost var s := Snapshot();
      var p := RespondTo(e);
      SetPhase(p);
      RespondKeepsActor(s, e);
      Settle();
    }

    /** After the answer: `pygame.quit()` on a quit, the next unit once the turn is over. */
    method Settle()
      requires Wired() && 0 <= current < |RosterOf(side)|
      modifies this`side, this`current, this`phase, this`status, playerUnits, enemyUnits
      ensures Wired()
      ensures Snapshot() == Conclude(old(Snapshot()))
    {
      if phase == Quit {
        SetStatus(Abandoned);
      } else if phase == TurnDone {
        FinishTurn();
      }
    }

    /** One key event: `GameStep` on the snapshot, and the invariant kept. */
    method Step(e: Event)
      requires Valid()
      modifies this, playerUnits, enemyUnits
      ensures Valid()
      ensures Snapshot() == GameStep(old(Snapshot()), e)
    {
      GameStepKeepsInv(Snapshot(), e);
      Play(e);
    }
  }

  // ---------------------------------------------------------------------------------------------
  // select_units

  /** The catalogue, in the order keys 1 to 5 pick from it. */
  const Catalogue: seq<Variant> := [Archer, Swordsman, Wizard, Invincible, Bomber]

  /** One key press of the selection screen: keys 1 to 5 add their class unless it is already in
      the team. */
  function Pick(chosen: seq<Variant>, key: int): seq<Variant> {
    if 1 <= key <= 5 && Catalogue[key - 1] !in chosen then chosen + [Catalogue[key - 1]] else chosen
  }

  function Picks(keys: seq<int>): seq<Variant> {
    if |keys| == 0 then [] else Pick(Picks(keys[..|keys| - 1]), keys[|keys| - 1])
  }

  /** The classes the keys name. */
  function KeyClasses(keys: seq<int>): set<Variant> {
    set k | k in keys && 1 <= k <= 5 :: Catalogue[k - 1]
  }

  /** One more key adds the class it names, if any, to the classes named so far. */
  lemma {:induction false} KeyClassesSnoc(init: seq<int>, key: int)
    ensures KeyClasses(init + [key]) == KeyClasses(init) + (if 1 <= key <= 5 then {Catalogue[key - 1]} else {})
  {
    var keys := init + [key];
    forall v | v in KeyClasses(keys) ensures v in KeyClasses(init) || (1 <= key <= 5 && v == Catalogue[key - 1]) {
      var k :| k in keys && 1 <= k <= 5 && v == Catalogue[k - 1];
      if k in init {
        assert v in KeyClasses(init);
      }
    }
    forall v | v in KeyClasses(init) ensures v in KeyClasses(keys) {
      var k :| k in init && 1 <= k <= 5 && v == Catalogue[k - 1];
      assert k in keys;
    }
    if 1 <= key <= 5 {
      assert key in keys;
    }
  }

  /** The picks hold no class twice and hold exactly the classes the keys name. */
  lemma {:induction false} PicksAreKeyClasses(keys: seq<int>)
    ensures Distinct(Picks(keys))
    ensures forall v :: v in Picks(keys) <==> v in KeyClasses(keys)
  {
    if |keys| > 0 {
      var init := keys[..|keys| - 1];
      PicksAreKeyClasses(init);
      assert keys == init + [keys[|keys| - 1]];
      KeyClassesSnoc(init, keys[|keys| - 1]);
    }
  }

  /** A sequence without repetitions is at least as long as the set of its elements. */
  lemma {:induction false} DistinctLength<T>(s: seq<T>, c: set<T>)
    requires Distinct(s) && forall v :: v in c ==> v in s
    ensures |c| <= |s|
  {
    if |s| > 0 {
      var last := s[|s| - 1];
      var init := s[..|s| - 1];
      forall v | v in c - {last} ensures v in init {
        var m :| 0 <= m < |s| && s[m] == v;
        assert m != |s| - 1;
      }
      DistinctLength(init, c - {last});
    } else {
      assert c == {};
    }
  }

  /** `select_units`: key presses are read until three classes are chosen; with the keys running
      out first the team stays short. */
  method SelectUnits(keys: seq<int>) returns (chosen: seq<Variant>, used: int)
    ensures 0 <= used <= |keys| && chosen == Picks(keys[..used])
    ensures Distinct(chosen) && |chosen| <= 3
    ensures |chosen| < 3 ==> used == |keys|
    ensures |KeyClasses(keys)| >= 3 ==> |chosen| == 3
  {
    var allUnits := Catalogue;
    chosen := [];
    used := 0;
    while |chosen| < 3 && used < |keys|
      invariant 0 <= used <= |keys| && chosen == Picks(keys[..used]) && |chosen| <= 3
    {
      var key := keys[used];
      if 1 <= key <= 5 {
        var index := key - 1;
        if allUnits[index] !in chosen {
          chosen := chosen + [allUnits[index]];
        }
      }
      assert keys[..used + 1][..used] == keys[..used];
      used := used + 1;
    }
    PicksAreKeyClasses(keys[..used]);
    if |chosen| < 3 {
      assert keys[..used] == keys;
      DistinctLength(chosen, KeyClasses(keys));
    }
  }
}
