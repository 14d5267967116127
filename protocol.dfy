/** The turn of one unit in game.py, fed one key event at a time: a move phase with a budget of
    arrow presses, closed by the budget running out or by the space bar, then an attack phase that
    waits for exactly one turn-ending key. */
module Protocol {

  datatype Event = Left | Right | Up | Down | Space | KeyOne | KeyTwo | KeyS | KeyL | KeyE | Close | Other

  /** `Moving(remaining)` is the `while remaining_moves > 0` loop, `Attacking` the
      `while not has_attacked` loop; `Quit` is `pygame.quit(); exit()`. */
  datatype Phase = Moving(remaining: int) | Attacking | TurnDone | Quit

  /** The index of `attack_types`: 0 for the normal attack (key 1), 1 for the special (key 2). */
  type AttackIndex = i: int | 0 <= i < 2

  /** What the current unit does in answer to one event. */
  datatype Action = NoAction | MoveBy(dx: int, dy: int) | Strike(attackType: AttackIndex) | HealSelf

  predicate IsArrow(e: Event) { e == Left || e == Right || e == Up || e == Down }

  /** The displacement an arrow key asks for; other keys leave both at 0. */
  function Arrow(e: Event): (int, int) {
    match e
    case Left => (-1, 0)
    case Right => (1, 0)
    case Up => (0, -1)
    case Down => (0, 1)
    case _ => (0, 0)
  }

  /** A turn starts with `remaining_moves = movement_speed`; a budget of 0 skips the move loop. */
  function StartPhase(speed: int): (p: Phase)
    ensures WellFormed(p)
    ensures speed > 0 <==> p == Moving(speed)
  {
    if speed > 0 then Moving(speed) else Attacking
  }

  /** A move phase always has budget left: the loop is left as soon as it runs out. */
  predicate WellFormed(p: Phase) { p.Moving? ==> p.remaining > 0 }

  /** Every event keeps the phase well formed. */
  lemma {:induction false} NextWellFormed(p: Phase, e: Event, canHeal: bool)
    requires WellFormed(p)
    ensures WellFormed(Next(p, e, canHeal).0)
  {
  }

  /** The phase after one event and what the unit does. `canHeal` is the `l` key's guard: a
      wizard below its maximum health. */
  function Next(p: Phase, e: Event, canHeal: bool): (Phase, Action) {
    match p
    case Moving(remaining) =>
      if e == Close || e == KeyE then (Quit, NoAction)
      else if IsArrow(e) then
        (if remaining - 1 > 0 then Moving(remaining - 1) else Attacking, MoveBy(Arrow(e).0, Arrow(e).1))
      else if e == Space then (Attacking, NoAction)
      else (p, NoAction)
    case Attacking =>
      if e == Close then (Quit, NoAction)
      else if e == KeyOne then (TurnDone, Strike(0))
      else if e == KeyTwo then (TurnDone, Strike(1))
      else if e == KeyS then (TurnDone, NoAction)
      else if e == KeyL && canHeal then (TurnDone, HealSelf)
      else (p, NoAction)
    case TurnDone => (p, NoAction)
    case Quit => (p, NoAction)
  }

  /** One event, case by case: an arrow costs one unit of budget whether or not the unit can
      move; only the space bar and the budget end the move phase; the attack phase ends only on
      `1`, `2`, `s`, or `l` with its guard; a finished turn or a quit absorbs every event. */
  lemma {:induction false} NextCases(p: Phase, e: Event, canHeal: bool)
    ensures var (q, a) := Next(p, e, canHeal);
      && (a.MoveBy? <==> p.Moving? && IsArrow(e))
      && (a.MoveBy? ==> q == (if p.remaining > 1 then Moving(p.remaining - 1) else Attacking) && (a.dx, a.dy) != (0, 0))
      && (p.Moving? && e == Space ==> q == Attacking && a == NoAction)
      && (p.Moving? && q != p ==> e == Space || e == Close || e == KeyE || IsArrow(e))
      && (p.Attacking? ==> (q == TurnDone <==> e == KeyOne || e == KeyTwo || e == KeyS || (e == KeyL && canHeal)))
      && (p.Attacking? && q == Attacking ==> a == NoAction)
      && (a.Strike? || a.HealSelf? ==> p.Attacking? && q == TurnDone)
      && (a == HealSelf ==> canHeal)
      && (q == Quit ==> a == NoAction)
      && (p == TurnDone || p == Quit ==> q == p && a == NoAction)
  {
  }

  /** The phase after a sequence of events. */
  function Run(p: Phase, es: seq<Event>, canHeal: bool): Phase
    decreases |es|
  {
    if |es| == 0 then p else Run(Next(p, es[0], canHeal).0, es[1..], canHeal)
  }

  /** The actions a sequence of events produces, in order. */
  function Actions(p: Phase, es: seq<Event>, canHeal: bool): seq<Action>
    decreases |es|
  {
    if |es| == 0 then [] else [Next(p, es[0], canHeal).1] + Actions(Next(p, es[0], canHeal).0, es[1..], canHeal)
  }

  function CountMoves(acts: seq<Action>): nat {
    if |acts| == 0 then 0 else (if acts[0].MoveBy? then 1 else 0) + CountMoves(acts[1..])
  }

  function CountTerminal(acts: seq<Action>): nat {
    if |acts| == 0 then 0 else (if acts[0].Strike? || acts[0].HealSelf? then 1 else 0) + CountTerminal(acts[1..])
  }

  /** `remaining` arrow presses from a budget of `remaining` close the move phase, each one moving
      the unit. */
  lemma {:induction false} ArrowsExhaustBudget(remaining: int, es: seq<Event>, canHeal: bool)
    requires remaining > 0 && |es| == remaining
    requires forall k :: 0 <= k < |es| ==> IsArrow(es[k])
    ensures Run(Moving(remaining), es, canHeal) == Attacking
    ensures CountMoves(Actions(Moving(remaining), es, canHeal)) == remaining
  {
    if remaining > 1 {
      ArrowsExhaustBudget(remaining - 1, es[1..], canHeal);
    } else {
      assert es[1..] == [];
    }
  }

  /** No sequence of events moves a unit more often than its budget allows, and nothing moves it
      once the move phase is over. */
  lemma {:induction false} MovesWithinBudget(p: Phase, es: seq<Event>, canHeal: bool)
    requires WellFormed(p)
    ensures CountMoves(Actions(p, es, canHeal)) <= (if p.Moving? then p.remaining else 0)
    decreases |es|
  {
    if |es| > 0 {
      var (q, a) := Next(p, es[0], canHeal);
      MovesWithinBudget(q, es[1..], canHeal);
    }
  }

  /** A turn holds at most one attack or heal, and none at all once it is over. */
  lemma {:induction false} AtMostOneTerminalAction(p: Phase, es: seq<Event>, canHeal: bool)
    ensures CountTerminal(Actions(p, es, canHeal)) <= (if p.Moving? || p.Attacking? then 1 else 0)
    decreases |es|
  {
    if |es| > 0 {
      var (q, a) := Next(p, es[0], canHeal);
      AtMostOneTerminalAction(q, es[1..], canHeal);
    }
  }

  /** Once the turn is finished or quit, the phase stays put. */
  lemma {:induction false} FinishedTurnIsFinal(p: Phase, es: seq<Event>, canHeal: bool)
    requires p == TurnDone || p == Quit
    ensures Run(p, es, canHeal) == p
    ensures CountMoves(Actions(p, es, canHeal)) == 0 && CountTerminal(Actions(p, es, canHeal)) == 0
    decreases |es|
  {
    if |es| > 0 {
      FinishedTurnIsFinal(p, es[1..], canHeal);
    }
  }
}
