/** The rules of game.py on values: the terrain literal, what one attack does to the opposing
    roster, which unit acts next, the win check at the start of each round, and one event's effect
    on the whole game. The `Game` class is proved against these functions. */
module Rules {
  import opened Terrain
  import opened Worlds
  import opened Geometry
  import opened Units
  import opened Removal
  import opened Protocol

  /** The board size the game passes to every unit. */
  const N: int := 17

  /** The `grid` literal at the top of game.py. */
  function GameGrid(): Grid {
    [
      Rep(PassageVert, 13) + [Arbre, Mur, HealingZone, PassageVert],
      Rep(PassageVert, 13) + [Arbre, Mur, PassageVert, PassageVert],
      Rep(PassageVert, 3) + [Mur, Arbre] + Rep(PassageVert, 8) + [Arbre, Mur, Mur, PassageVert],
      Rep(Mur, 4) + [Arbre] + Rep(PassageVert, 4) + [Mer] + Rep(PassageVert, 3) + Rep(Arbre, 3) + [PassageVert],
      Rep(Arbre, 5) + Rep(PassageVert, 4) + Rep(Mer, 2) + Rep(PassageVert, 6),
      Rep(PassageVert, 17),
      Rep(PassageVert, 6) + Rep(Arbre, 4) + Rep(PassageVert, 7),
      Rep(PassageVert, 2) + [Arbre] + Rep(PassageVert, 3) + [Arbre, Mer, Mer, Arbre] + Rep(PassageVert, 6) + [Mer],
      Rep(PassageVert, 2) + [Arbre] + Rep(PassageVert, 4) + [Mer, Mer, Arbre] + Rep(PassageVert, 5) + [Mer] + [HealingZone],
      Rep(Arbre, 3) + Rep(PassageVert, 3) + [Arbre, Mer, Arbre, Arbre] + Rep(PassageVert, 4) + [Mer] + Rep(PassageVert, 2),
      Rep(PassageVert, 6) + [Arbre] + Rep(PassageVert, 6) + [Mer] + Rep(PassageVert, 3),
      Rep(PassageVert, 17),
      Rep(PassageVert, 2) + Rep(Mur, 2) + Rep(PassageVert, 8) + Rep(Arbre, 5),
      [Arbre] + Rep(PassageVert, 2) + [Mur] + Rep(PassageVert, 8) + [Arbre] + Rep(Mur, 4),
      Rep(Arbre, 2) + Rep(PassageVert, 10) + [Arbre] + [Mur] + Rep(PassageVert, 3),
      Rep(PassageVert, 3) + [Mur] + Rep(PassageVert, 4) + [Mer] + Rep(PassageVert, 8),
      Rep(PassageVert, 2) + [HealingZone] + [Mur] + Rep(PassageVert, 3) + Rep(Mer, 3) + Rep(PassageVert, 7)
    ]
  }

  /** The game's literal is cell for cell the large map of grid.py, hence a 17 by 17 board. */
  lemma {:induction false} GameGridIsLargeWorld()
    ensures GameGrid() == Monde1_17()
    ensures IsSquare(GameGrid(), N)
  {
    GrandeIsSquare(1);
  }

  /** The six starting cells: the player's team in the top-left corner, the enemy's in the
      bottom-right corner. */
  const PlayerStart: seq<Cell> := [(0, 0), (1, 0), (0, 1)]
  const EnemyStart: seq<Cell> := [(16, 16), (16, 15), (15, 16)]

  /** All six starting cells are on the board and plain grass. */
  lemma {:induction false} StartCellsArePlain(k: int)
    requires 0 <= k < 3
    ensures InBounds(N, PlayerStart[k].0, PlayerStart[k].1) && GameGrid()[PlayerStart[k].1][PlayerStart[k].0] == PassageVert
    ensures InBounds(N, EnemyStart[k].0, EnemyStart[k].1) && GameGrid()[EnemyStart[k].1][EnemyStart[k].0] == PassageVert
  {
  }

  // ---------------------------------------------------------------------------------------------
  // Units as values

  /** What a unit object holds that the rules read or change. */
  datatype UnitState = UnitState(variant: Variant, team: Team, x: int, y: int, health: real, isSelected: bool)

  function MaxHealth(u: UnitState): real { StatsOf(u.variant).health }

  /** The `l` key's guard: a wizard below its maximum health. */
  predicate CanHeal(u: UnitState) { u.variant == Wizard && u.health < MaxHealth(u) }

  function Opponent(t: Team): Team { if t == Player then Enemy else Player }

  /** The zone of one of the unit's attacks, as `get_attackable_cells(attack_type)` builds it. */
  function ZoneFor(u: UnitState, at: AttackIndex): set<Cell> {
    ZoneOf(u.variant, N, u.x, u.y, ProfilesOf(u.variant)[at].range)
  }

  /** What `attacker.attack(target, at)` takes off the target. */
  function Blow(attacker: UnitState, at: AttackIndex, target: UnitState): real {
    Damage(attacker.x, attacker.y, target.x, target.y, ProfilesOf(attacker.variant)[at])
  }

  // ---------------------------------------------------------------------------------------------
  // execute_attack on values

  function InZone(cells: set<Cell>, ts: seq<UnitState>): (r: seq<bool>)
    ensures |r| == |ts| && forall k :: 0 <= k < |ts| ==> r[k] == ((ts[k].x, ts[k].y) in cells)
  {
    seq(|ts|, k requires 0 <= k < |ts| => (ts[k].x, ts[k].y) in cells)
  }

  function Lethal(a: UnitState, at: AttackIndex, ts: seq<UnitState>): (r: seq<bool>)
    ensures |r| == |ts| && forall k :: 0 <= k < |ts| ==> r[k] == (ts[k].health - Blow(a, at, ts[k]) <= 0.0)
  {
    seq(|ts|, k requires 0 <= k < |ts| => ts[k].health - Blow(a, at, ts[k]) <= 0.0)
  }

  /** What the walk over the targets does to each of them. */
  function StrikeFates(a: UnitState, at: AttackIndex, cells: set<Cell>, ts: seq<UnitState>): (f: seq<Fate>)
    ensures |f| == |ts|
  {
    Fates(InZone(cells, ts), Lethal(a, at, ts))
  }

  /** The targets after their blows, before the dead are taken out. */
  function AfterBlows(a: UnitState, at: AttackIndex, cells: set<Cell>, ts: seq<UnitState>): (r: seq<UnitState>)
    ensures |r| == |ts|
    ensures forall k :: 0 <= k < |ts| ==>
      r[k] == (if StrikeFates(a, at, cells, ts)[k] != Untouched then ts[k].(health := ts[k].health - Blow(a, at, ts[k])) else ts[k])
  {
    var f := StrikeFates(a, at, cells, ts);
    seq(|ts|, k requires 0 <= k < |ts| => if f[k] != Untouched then ts[k].(health := ts[k].health - Blow(a, at, ts[k])) else ts[k])
  }

  /** `execute_attack(unit, cells, targets, at)`: the opposing roster afterwards. */
  function StrikeTargets(a: UnitState, at: AttackIndex, cells: set<Cell>, ts: seq<UnitState>): seq<UnitState> {
    Survivors(AfterBlows(a, at, cells, ts), StrikeFates(a, at, cells, ts))
  }

  /** Only targets standing in the zone are attacked; the rest come out unchanged and stay. */
  lemma {:induction false} StrikeOnlyInZone(a: UnitState, at: AttackIndex, cells: set<Cell>, ts: seq<UnitState>, k: int)
    requires 0 <= k < |ts|
    ensures (ts[k].x, ts[k].y) !in cells ==>
      StrikeFates(a, at, cells, ts)[k] == Untouched && ts[k] in StrikeTargets(a, at, cells, ts)
  {
    var f := StrikeFates(a, at, cells, ts);
    if (ts[k].x, ts[k].y) !in cells {
      KilledMeansLethal(InZone(cells, ts), Lethal(a, at, ts), k);
      SurvivorsAreKept(AfterBlows(a, at, cells, ts), f);
      var m :| 0 <= m < |Kept(f)| && Kept(f)[m] == k;
      assert StrikeTargets(a, at, cells, ts)[m] == ts[k];
    }
  }

  /** A target is removed exactly when it was attacked and left with no health; a target that
      stays after being attacked has lost exactly the blow. */
  lemma {:induction false} StrikeRemovesTheDead(a: UnitState, at: AttackIndex, cells: set<Cell>, ts: seq<UnitState>, k: int)
    requires 0 <= k < |ts|
    ensures var f := StrikeFates(a, at, cells, ts);
      (f[k] == Killed <==> f[k] != Untouched && AfterBlows(a, at, cells, ts)[k].health <= 0.0)
      && (f[k] == Struck ==> AfterBlows(a, at, cells, ts)[k].health == ts[k].health - Blow(a, at, ts[k]) > 0.0)
  {
    KilledMeansLethal(InZone(cells, ts), Lethal(a, at, ts), k);
  }

  /** The roster never grows, keeps its order, and keeps only units with health left when it
      started with such units only. */
  lemma {:induction false} StrikeKeepsTheLiving(a: UnitState, at: AttackIndex, cells: set<Cell>, ts: seq<UnitState>)
    requires forall k :: 0 <= k < |ts| ==> ts[k].health > 0.0
    ensures var r := StrikeTargets(a, at, cells, ts); var kept := Kept(StrikeFates(a, at, cells, ts));
      && |r| == |kept| <= |ts|
      && (forall m :: 0 <= m < |r| ==> r[m].health > 0.0)
      && (forall m :: 0 <= m < |r| ==>
            (0 <= kept[m] < |ts| && r[m] == ts[kept[m]].(health := r[m].health) && r[m].health <= ts[kept[m]].health))
  {
    var f := StrikeFates(a, at, cells, ts);
    var s := AfterBlows(a, at, cells, ts);
    SurvivorsAreKept(s, f);
    forall m | 0 <= m < |Kept(f)|
      ensures StrikeTargets(a, at, cells, ts)[m].health > 0.0
      ensures StrikeTargets(a, at, cells, ts)[m].health <= ts[Kept(f)[m]].health
    {
      SurvivingBlow(a, at, cells, ts, Kept(f)[m]);
    }
  }

  /** A target the strike does not remove comes out alive, no healthier, and otherwise unchanged. */
  lemma {:induction false} SurvivingBlow(a: UnitState, at: AttackIndex, cells: set<Cell>, ts: seq<UnitState>, k: int)
    requires 0 <= k < |ts| && ts[k].health > 0.0 && StrikeFates(a, at, cells, ts)[k] != Killed
    ensures var t := AfterBlows(a, at, cells, ts)[k];
      t == ts[k].(health := t.health) && 0.0 < t.health <= ts[k].health
  {
    KilledMeansLethal(InZone(cells, ts), Lethal(a, at, ts), k);
    ProfileTable(a.variant);
    assert Blow(a, at, ts[k]) >= 0.0;
  }

  // ---------------------------------------------------------------------------------------------
  // The whole game

  /** `Over(winner)` is the broken-out `start_game` loop; `Abandoned` is a quit. */
  datatype Status = Playing | Over(winner: Team) | Abandoned

  /** Both rosters, whose turn it is, the index of the acting unit in its team's list, and that
      unit's phase. */
  datatype GameState = GameState(players: seq<UnitState>, enemies: seq<UnitState>, side: Team, current: int, phase: Phase, status: Status)

  function Roster(s: GameState, t: Team): seq<UnitState> {
    if t == Player then s.players else s.enemies
  }

  function WithRoster(s: GameState, t: Team, r: seq<UnitState>): (s': GameState)
    ensures Roster(s', t) == r && Roster(s', Opponent(t)) == Roster(s, Opponent(t))
    ensures s'.side == s.side && s'.current == s.current && s'.phase == s.phase && s'.status == s.status
  {
    if t == Player then s.(players := r) else s.(enemies := r)
  }

  /** Unit `i` of team `t` takes its turn: selected, with a fresh move budget. */
  function Begin(s: GameState, t: Team, i: int): GameState
    requires 0 <= i < |Roster(s, t)|
  {
    var u := Roster(s, t)[i];
    WithRoster(s, t, Roster(s, t)[i := u.(isSelected := true)]).(side := t, current := i, phase := StartPhase(StatsOf(u.variant).speed))
  }

  /** The check at the top of `start_game`'s loop: an empty player roster ends the game first,
      then an empty enemy roster; otherwise the player's first unit begins a new round. */
  function RoundStart(s: GameState): GameState {
    if |s.players| == 0 then s.(status := Over(Enemy))
    else if |s.enemies| == 0 then s.(status := Over(Player))
    else Begin(s, Player, 0)
  }

  /** The next unit in list order; after the player's last unit the enemy's first (the enemy loop
      runs over nothing when that roster is empty); after the enemy's last unit, a new round. */
  function Advance(s: GameState): GameState {
    if 0 <= s.current + 1 < |Roster(s, s.side)| then Begin(s, s.side, s.current + 1)
    else if s.side == Player && |s.enemies| > 0 then Begin(s, Enemy, 0)
    else RoundStart(s)
  }

  /** The turn of the acting unit is over: `is_selected` goes back to false and the next one
      begins. */
  function EndTurn(s: GameState): GameState
    requires 0 <= s.current < |Roster(s, s.side)|
  {
    var r := Roster(s, s.side);
    Advance(WithRoster(s, s.side, r[s.current := r[s.current].(isSelected := false)]))
  }

  /** Arrow keys: `unit.move(dx, dy)` for the acting unit. */
  function MoveActor(s: GameState, dx: int, dy: int): GameState
    requires 0 <= s.current < |Roster(s, s.side)|
  {
    GameGridIsLargeWorld();
    var r := Roster(s, s.side);
    var u := r[s.current];
    var b := MoveResult(u.variant, GameGrid(), N, Body(u.x, u.y, u.health), MaxHealth(u), dx, dy);
    WithRoster(s, s.side, r[s.current := u.(x := b.x, y := b.y, health := b.health)])
  }

  /** Keys 1 and 2: `execute_attack` on the other team with the acting unit's zone. */
  function StrikeOpponents(s: GameState, at: AttackIndex): GameState
    requires 0 <= s.current < |Roster(s, s.side)|
  {
    var u := Roster(s, s.side)[s.current];
    WithRoster(s, Opponent(s.side), StrikeTargets(u, at, ZoneFor(u, at), Roster(s, Opponent(s.side))))
  }

  /** Key `l`: `unit.heal()` for the acting unit. */
  function HealActor(s: GameState): GameState
    requires 0 <= s.current < |Roster(s, s.side)|
  {
    var r := Roster(s, s.side);
    var u := r[s.current];
    WithRoster(s, s.side, r[s.current := u.(health := Healed(u.health, MaxHealth(u)))])
  }

  /** The acting unit carries out an action. */
  function Perform(s: GameState, act: Action): GameState
    requires 0 <= s.current < |Roster(s, s.side)|
  {
    match act
    case NoAction => s
    case MoveBy(dx, dy) => MoveActor(s, dx, dy)
    case Strike(at) => StrikeOpponents(s, at)
    case HealSelf => HealActor(s)
  }

  /** The acting unit answers one event: its action, then its new phase. */
  function Respond(s: GameState, e: Event): (s1: GameState)
    requires 0 <= s.current < |Roster(s, s.side)|
  {
    var u := Roster(s, s.side)[s.current];
    var (p, act) := Next(s.phase, e, CanHeal(u));
    Perform(s, act).(phase := p)
  }

  /** After the answer: `pygame.quit()` on a quit, the next unit once the turn is over. */
  function Conclude(s1: GameState): GameState
    requires 0 <= s1.current < |Roster(s1, s1.side)|
  {
    if s1.phase == Quit then s1.(status := Abandoned)
    else if s1.phase == TurnDone then EndTurn(s1)
    else s1
  }

  /** One key event. */
  function GameStep(s: GameState, e: Event): GameState {
    if s.status != Playing || !(0 <= s.current < |Roster(s, s.side)|) then s
    else
      RespondKeepsActor(s, e);
      Conclude(Respond(s, e))
  }

  /** An answer changes neither the side, the acting unit's index, the length of its roster nor
      the status. */
  lemma {:induction false} RespondKeepsActor(s: GameState, e: Event)
    requires 0 <= s.current < |Roster(s, s.side)|
    ensures var s1 := Respond(s, e);
      s1.side == s.side && s1.current == s.current && s1.status == s.status &&
      |Roster(s1, s1.side)| == |Roster(s, s.side)|
  {
    var u := Roster(s, s.side)[s.current];
    var (p, act) := Next(s.phase, e, CanHeal(u));
    ActionsStayOnTheirSide(s, act);
  }

  /** A team as `main_menu` builds it: the chosen classes in order, at full health, unselected,
      on the team's starting cells. */
  function StartingRoster(vs: seq<Variant>, t: Team, starts: seq<Cell>): (r: seq<UnitState>)
    requires |vs| == 3 && |starts| == 3
    ensures |r| == 3
  {
    seq(3, k requires 0 <= k < 3 => UnitState(vs[k], t, starts[k].0, starts[k].1, StatsOf(vs[k]).health, false))
  }

  /** The start of `start_game`, both rosters placed. */
  function InitialState(pv: seq<Variant>, ev: seq<Variant>): GameState
    requires |pv| == 3 && |ev| == 3
  {
    RoundStart(GameState(StartingRoster(pv, Player, PlayerStart), StartingRoster(ev, Enemy, EnemyStart), Player, 0, Attacking, Playing))
  }

  // ---------------------------------------------------------------------------------------------
  // The invariant

  predicate UnitOk(u: UnitState, t: Team) {
    GameGridIsLargeWorld();
    u.team == t && u.health > 0.0 && Standable(u.variant, GameGrid(), N, u.x, u.y)
  }

  /** Every unit of a roster belongs to its team, has health left and stands where it may. */
  predicate UnitsOk(r: seq<UnitState>, t: Team) {
    forall m :: 0 <= m < |r| ==> UnitOk(r[m], t)
  }

  /** Exactly the unit at index `sel` is selected; none when `sel` is -1. */
  predicate SelectedExactly(r: seq<UnitState>, sel: int) {
    forall m :: 0 <= m < |r| ==> (r[m].isSelected <==> m == sel)
  }

  /** The index of team `t`'s unit taking its turn, -1 for none. A quit leaves the acting unit
      selected; the end of the game leaves none. */
  function Acting(s: GameState, t: Team): int {
    if !s.status.Over? && s.side == t then s.current else -1
  }

  /** The game invariant: sound rosters, exactly the acting unit selected, and while the game is
      on, an acting unit in its move or attack phase. */
  predicate Inv(s: GameState) {
    && UnitsOk(s.players, Player) && UnitsOk(s.enemies, Enemy)
    && SelectedExactly(s.players, Acting(s, Player)) && SelectedExactly(s.enemies, Acting(s, Enemy))
    && (!s.status.Over? ==> 0 <= s.current < |Roster(s, s.side)|)
    && (s.status == Playing ==> WellFormed(s.phase) && (s.phase.Moving? || s.phase.Attacking?))
  }

  /** Selecting or deselecting one unit changes nothing else about its roster. */
  lemma {:induction false} Reselect(r: seq<UnitState>, t: Team, i: int, b: bool, sel: int)
    requires 0 <= i < |r| && UnitsOk(r, t) && SelectedExactly(r, sel)
    requires if b then sel == -1 else sel == i
    ensures UnitsOk(r[i := r[i].(isSelected := b)], t)
    ensures SelectedExactly(r[i := r[i].(isSelected := b)], if b then i else -1)
  {
    var r' := r[i := r[i].(isSelected := b)];
    forall m | 0 <= m < |r'| ensures UnitOk(r'[m], t) {
      assert UnitOk(r[m], t);
    }
  }

  /** Rosters between two turns: sound, nobody selected. */
  predicate Idle(s: GameState) {
    && UnitsOk(s.players, Player) && UnitsOk(s.enemies, Enemy)
    && SelectedExactly(s.players, -1) && SelectedExactly(s.enemies, -1)
  }

  lemma {:induction false} BeginOk(s: GameState, t: Team, i: int)
    requires s.status == Playing && 0 <= i < |Roster(s, t)| && Idle(s)
    ensures Inv(Begin(s, t, i))
  {
    if t == Player {
      Reselect(s.players, Player, i, true, -1);
    } else {
      Reselect(s.enemies, Enemy, i, true, -1);
    }
  }

  lemma {:induction false} RoundStartOk(s: GameState)
    requires s.status == Playing && Idle(s)
    ensures Inv(RoundStart(s))
  {
    if |s.players| > 0 && |s.enemies| > 0 {
      BeginOk(s, Player, 0);
    }
  }

  lemma {:induction false} EndTurnOk(s: GameState)
    requires s.status == Playing && 0 <= s.current < |Roster(s, s.side)|
    requires UnitsOk(s.players, Player) && UnitsOk(s.enemies, Enemy)
    requires SelectedExactly(Roster(s, s.side), s.current) && SelectedExactly(Roster(s, Opponent(s.side)), -1)
    ensures Inv(EndTurn(s))
  {
    var r := Roster(s, s.side);
    var s1 := WithRoster(s, s.side, r[s.current := r[s.current].(isSelected := false)]);
    if s.side == Player {
      Reselect(s.players, Player, s.current, false, s.current);
    } else {
      Reselect(s.enemies, Enemy, s.current, false, s.current);
    }
    assert Idle(s1);
    if 0 <= s1.current + 1 < |Roster(s1, s1.side)| {
      BeginOk(s1, s1.side, s1.current + 1);
    } else if s1.side == Player && |s1.enemies| > 0 {
      BeginOk(s1, Enemy, 0);
    } else {
      RoundStartOk(s1);
    }
  }

  /** A roster where one unit changes in place, keeping its selection flag. */
  lemma {:induction false} ReplaceOk(r: seq<UnitState>, t: Team, i: int, u: UnitState, sel: int)
    requires 0 <= i < |r| && UnitsOk(r, t) && SelectedExactly(r, sel)
    requires UnitOk(u, t) && u.isSelected == r[i].isSelected
    ensures UnitsOk(r[i := u], t) && SelectedExactly(r[i := u], sel)
  {
    var r' := r[i := u];
    forall m | 0 <= m < |r'| ensures UnitOk(r'[m], t) {
      if m != i {
        assert UnitOk(r[m], t);
      }
    }
  }

  /** The opposing roster after an attack: sound, and nobody selected. */
  lemma {:induction false} StrikeOk(a: UnitState, at: AttackIndex, cells: set<Cell>, ts: seq<UnitState>, t: Team)
    requires UnitsOk(ts, t) && SelectedExactly(ts, -1)
    ensures UnitsOk(StrikeTargets(a, at, cells, ts), t) && SelectedExactly(StrikeTargets(a, at, cells, ts), -1)
  {
    assert forall k :: 0 <= k < |ts| ==> UnitOk(ts[k], t) && ts[k].health > 0.0;
    StrikeKeepsTheLiving(a, at, cells, ts);
    var r := StrikeTargets(a, at, cells, ts);
    var kept := Kept(StrikeFates(a, at, cells, ts));
    forall m | 0 <= m < |r| ensures UnitOk(r[m], t) && !r[m].isSelected {
      assert UnitOk(ts[kept[m]], t) && !ts[kept[m]].isSelected;
    }
  }

  /** The acting unit's action keeps both rosters sound and the selection where it was. */
  lemma {:induction false} PerformOk(s: GameState, act: Action)
    requires Inv(s) && s.status == Playing
    ensures var s1 := Perform(s, act);
      && UnitsOk(s1.players, Player) && UnitsOk(s1.enemies, Enemy)
      && SelectedExactly(Roster(s1, s.side), s.current) && SelectedExactly(Roster(s1, Opponent(s.side)), -1)
      && s1.current == s.current && s1.side == s.side && s1.status == Playing
      && |Roster(s1, s.side)| == |Roster(s, s.side)|
  {
    GameGridIsLargeWorld();
    var r := Roster(s, s.side);
    var u := r[s.current];
    assert SelectedExactly(r, s.current) && SelectedExactly(Roster(s, Opponent(s.side)), -1) by {
      if s.side == Player {} else {}
    }
    assert UnitsOk(r, s.side) && UnitsOk(Roster(s, Opponent(s.side)), Opponent(s.side)) by {
      if s.side == Player {} else {}
    }
    assert UnitOk(u, s.side);
    match act
    case NoAction =>
      assert s.side == Player || s.side == Enemy;
    case MoveBy(dx, dy) =>
      MoveKeepsStanding(u.variant, GameGrid(), N, Body(u.x, u.y, u.health), MaxHealth(u), dx, dy);
      var b := MoveResult(u.variant, GameGrid(), N, Body(u.x, u.y, u.health), MaxHealth(u), dx, dy);
      ReplaceOk(r, s.side, s.current, u.(x := b.x, y := b.y, health := b.health), s.current);
      assert s.side == Player || s.side == Enemy;
    case Strike(at) =>
      StrikeOk(u, at, ZoneFor(u, at), Roster(s, Opponent(s.side)), Opponent(s.side));
      assert s.side == Player || s.side == Enemy;
    case HealSelf =>
      ProfileTable(u.variant);
      ReplaceOk(r, s.side, s.current, u.(health := Healed(u.health, MaxHealth(u))), s.current);
      assert s.side == Player || s.side == Enemy;
  }

  /** Every event keeps the invariant. */
  lemma {:induction false} GameStepKeepsInv(s: GameState, e: Event)
    requires Inv(s)
    ensures Inv(GameStep(s, e))
  {
    if s.status == Playing {
      RespondOk(s, e);
      ConcludeOk(Respond(s, e));
    }
  }

  /** The state between the answer and its conclusion: sound rosters, the acting unit still
      selected and in range, a well-formed phase. */
  ghost predicate Answered(s1: GameState) {
    && s1.status == Playing && 0 <= s1.current < |Roster(s1, s1.side)|
    && UnitsOk(s1.players, Player) && UnitsOk(s1.enemies, Enemy)
    && SelectedExactly(Roster(s1, s1.side), s1.current) && SelectedExactly(Roster(s1, Opponent(s1.side)), -1)
    && WellFormed(s1.phase)
  }

  lemma {:induction false} RespondOk(s: GameState, e: Event)
    requires Inv(s) && s.status == Playing
    ensures Answered(Respond(s, e))
  {
    var u := Roster(s, s.side)[s.current];
    var (p, act) := Next(s.phase, e, CanHeal(u));
    NextWellFormed(s.phase, e, CanHeal(u));
    PerformOk(s, act);
  }

  lemma {:induction false} ConcludeOk(s1: GameState)
    requires Answered(s1)
    ensures Inv(Conclude(s1))
  {
    if s1.phase == TurnDone {
      EndTurnOk(s1);
    } else {
      assert s1.side == Player || s1.side == Enemy;
    }
  }

  /** The game starts sound, with the player's first unit in its move phase and both teams on
      their starting cells. */
  lemma {:induction false} InitialStateOk(pv: seq<Variant>, ev: seq<Variant>)
    requires |pv| == 3 && |ev| == 3
    ensures Inv(InitialState(pv, ev))
    ensures var s := InitialState(pv, ev);
      s.status == Playing && s.side == Player && s.current == 0 && s.phase == Moving(3) &&
      (forall k :: 0 <= k < 3 ==> (s.players[k].x, s.players[k].y) == PlayerStart[k] && (s.enemies[k].x, s.enemies[k].y) == EnemyStart[k])
  {
    GameGridIsLargeWorld();
    var s0 := GameState(StartingRoster(pv, Player, PlayerStart), StartingRoster(ev, Enemy, EnemyStart), Player, 0, Attacking, Playing);
    forall k | 0 <= k < 3 ensures UnitOk(s0.players[k], Player) && UnitOk(s0.enemies[k], Enemy) {
      StartCellsArePlain(k);
      ProfileTable(pv[k]);
      ProfileTable(ev[k]);
    }
    ProfileTable(pv[0]);
    RoundStartOk(s0);
  }

  // ---------------------------------------------------------------------------------------------
  // Properties of the schedule

  /** Health can end above the maximum in the game itself: a swordsman left at 9.5 of 10 (after
      a 7.5-point Lava bomb and seven healing steps) that walks onto the healing tile at (2, 16)
      of the game's map ends at 10.5, although the state before the event is sound. */
  lemma {:induction false} HealingOvershootInGame()
    ensures GameGrid()[16][1] == PassageVert && GameGrid()[16][2] == HealingZone
    ensures var u := UnitState(Swordsman, Player, 1, 16, 9.5, true);
      var s := GameState([u], [UnitState(Bomber, Enemy, 16, 16, 15.0, false)], Player, 0, Moving(3), Playing);
      && Inv(s) && u.health <= MaxHealth(u)
      && GameStep(s, Right).players == [u.(x := 2, health := 10.5)]
      && 10.5 > MaxHealth(u)
  {
    GameGridIsLargeWorld();
    var g := GameGrid();
    assert g[16] == Rep(PassageVert, 2) + [HealingZone] + [Mur] + Rep(PassageVert, 3) + Rep(Mer, 3) + Rep(PassageVert, 7);
    assert g[16][1] == PassageVert && g[16][2] == HealingZone;
    assert g[16][16] == PassageVert;
  }

  /** A finished or quit game ignores every further event. */
  lemma {:induction false} OverIsFinal(s: GameState, e: Event)
    requires s.status != Playing
    ensures GameStep(s, e) == s
  {
  }

  /** The round check ends the game exactly when a roster is empty, the player's roster being
      looked at first, and the winner named is the team that still has units. */
  lemma {:induction false} RoundStartDecides(s: GameState)
    requires s.status == Playing
    ensures RoundStart(s).status != s.status <==> |s.players| == 0 || |s.enemies| == 0
    ensures |s.players| == 0 ==> RoundStart(s).status == Over(Enemy)
    ensures |s.players| > 0 && |s.enemies| == 0 ==> RoundStart(s).status == Over(Player)
    ensures RoundStart(s).status == Over(Player) ==> |s.players| > 0
    ensures RoundStart(s).status == Over(Enemy) && |s.enemies| > 0 ==> |s.players| == 0
  {
  }

  /** The win check runs only between rounds: when the player's last unit ends its turn with
      enemies left, the enemy's first unit begins, whatever happened to the player's roster. */
  lemma {:induction false} NoCheckBetweenTeams(s: GameState)
    requires s.side == Player && s.status == Playing && s.current == |s.players| - 1 && |s.enemies| > 0
    ensures Advance(s).status == Playing && Advance(s).side == Enemy && Advance(s).current == 0
  {
  }

  /** An attack never touches the attacker's own team, and a move, a heal or a skipped attack
      never touches the other team. */
  lemma {:induction false} ActionsStayOnTheirSide(s: GameState, act: Action)
    requires 0 <= s.current < |Roster(s, s.side)|
    ensures act.Strike? ==> Roster(Perform(s, act), s.side) == Roster(s, s.side)
    ensures !act.Strike? ==> Roster(Perform(s, act), Opponent(s.side)) == Roster(s, Opponent(s.side))
    ensures !act.Strike? ==> forall m :: 0 <= m < |Roster(s, s.side)| && m != s.current ==>
              Roster(Perform(s, act), s.side)[m] == Roster(s, s.side)[m]
  {
  }

  // ---------------------------------------------------------------------------------------------
  // The winner's announcement

  /** The number the instructions screen gives each team: joueur 1 is `'player'`, joueur 2 is
      `'enemy'`. */
  function PlayerNumber(t: Team): int { if t == Player then 1 else 2 }

  /** The message `start_game` prints, as written: joueur 1 when the player's roster is empty,
      joueur 2 when the enemy's is, nothing while both have units. */
  function AnnouncedAsWritten(players: seq<UnitState>, enemies: seq<UnitState>): (n: int)
    ensures n == 0 <==> |players| > 0 && |enemies| > 0
  {
    if |players| == 0 then 1 else if |enemies| == 0 then 2 else 0
  }

  /** As written, the message names the team that has just lost all its units. */
  lemma {:induction false} AnnouncedAsWrittenNamesLoser(players: seq<UnitState>, enemies: seq<UnitState>)
    requires |players| == 0 && |enemies| > 0
    ensures AnnouncedAsWritten(players, enemies) == PlayerNumber(Player)
    ensures RoundStart(GameState(players, enemies, Player, 0, Attacking, Playing)).status == Over(Enemy)
  {
  }

  /** The intended message: the number of the team the round check declares the winner. */
  function Announced(players: seq<UnitState>, enemies: seq<UnitState>): (n: int)
    ensures n == 0 <==> |players| > 0 && |enemies| > 0
  {
    var s := RoundStart(GameState(players, enemies, Player, 0, Attacking, Playing));
    if s.status.Over? then PlayerNumber(s.status.winner) else 0
  }

  /** The intended message names a team that still has units, and the other team has none. */
  lemma {:induction false} AnnouncedNamesWinner(players: seq<UnitState>, enemies: seq<UnitState>)
    requires |players| > 0 || |enemies| > 0
    ensures Announced(players, enemies) == PlayerNumber(Player) ==> |players| > 0 && |enemies| == 0
    ensures Announced(players, enemies) == PlayerNumber(Enemy) ==> |enemies| > 0 && |players| == 0
    ensures Announced(players, enemies) != AnnouncedAsWritten(players, enemies) <==> |players| == 0 || |enemies| == 0
  {
  }
}
