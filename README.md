# A tactics game on a terrain grid, modelled in Dafny

The game is a turn-based duel on a 17 by 17 board of terrain cells (`passage_vert`, `arbre`,
`mur`, `mer`, `healing_zone`). Two teams, `'player'` and `'enemy'`, each field three units
chosen from five classes: Archer, Swordsman, Wizard, Invincible and Bomber. Units move with
the arrow keys, validate their position with space, and then attack with `1` or `2`, skip
with `s`, or, for a wizard, heal with `l`. Each class has its own way of moving, its own movable
cells, two attack profiles and its own attack zone. An attack strikes every opposing unit
standing in the zone and removes the dead from the opposing list while walking over it. The
game ends when a team has no units left at the start of a round.

The project models:

- `terrain.dfy` (`Terrain`): the terrain kinds and the two obstacle lists.
- `worlds.dfy` (`Worlds`): the maps of grid.py and `Grill.generer_monde`'s selection,
  errors included.
- `geometry.dfy` (`Geometry`): the moves, movable-cell sets and attack zones of unit.py, as
  pure functions of position, map and board size.
- `units.dfy` (`Units`): the class table and the `Unit` class. Its methods update `x`, `y` and
  `health` in place, and its cell queries build their sets in the source's nested loops. Each
  is proved equal to the function in `Geometry` that specifies it.
- `removal.dfy` (`Removal`): removing from a Python list while a `for` loop walks over it.
  The iterator's index still advances after a removal, so the element just after a removed
  one is never examined.
- `protocol.dfy` (`Protocol`): the turn of one unit in game.py as a state machine fed one key
  event at a time. It has a move phase with a budget, then an attack phase waiting for one
  terminal key.
- `rules.dfy` (`Rules`): the game on values. It covers the terrain literal, the starting cells,
  `execute_attack`, the order in which units act, the win check, and the game invariant kept
  by every event.
- `game.dfy` (`Game`): the `Game` object with its two lists of unit objects, `execute_attack`
  as a loop that removes in place, and `select_units`. Every method is proved against `Rules`:
  the snapshot of the objects after a call is the rule applied to the snapshot before it.
- `prototype.dfy` (`Prototype`): the older unit of unit_V2.py and the skirmish of test2.py,
  where enemies chase a chosen player unit.

Notes on the code's behaviour:

- An attack with `1` or `2` strikes every opposing unit standing in the zone, except one right
  after a removed unit (game.py:571-575).
- The win check runs only at the top of each round (game.py:324-334). `Rules.NoCheckBetweenTeams`
  states this.
- Health may fall below 0 before the unit is removed, and a half-point health can rise above
  the maximum on a healing tile (`Rules.HealingOvershootInGame`).

## Model

| member | source | states |
|---|---|---|
| Terrain.WizardObstaclesAreObstacles | unit.py:285-288 | anything that stops the wizard stops every unit; water is the only cell that stops the others but not the wizard |
| Worlds.GenererMonde | grid.py:68-117 | the selection succeeds exactly for size "petite" or "grande" with world type 1 or 2; a bad size always gives the size error; the size is 17 for "grande" and 10 for "petite" |
| Worlds.GrandeIsSquare | grid.py:46-63 | both world types give the large map for "grande", and that map has 17 rows of 17 cells, as the docstring promises |
| Worlds.PetiteIsRagged | grid.py:32-42 | "petite" gives size 10, but its map has 14 rows, some of length 1, 2 and 7, so it is not the 10 by 10 square its docstring announces |
| Worlds.SecondWorldIsFirst | grid.py:43-64 | world type 2 selects exactly what world type 1 selects, for every size |
| Worlds.SelectionErrors | grid.py:89-117 | a bad size is reported whatever the world type; a good size with a world type other than 1 or 2 gives the world-type error |
| Geometry.StepIsAtomic | unit.py:411-418 | a case table of the definition: a step moves by exactly (dx, dy) onto an in-bounds cell that is not `mur`, `arbre` or `mer`, and otherwise leaves the position unchanged |
| Geometry.HealingStepGain | unit.py:84-92 | the base move moves like a plain step; health rises by exactly one point exactly when it lands on a `healing_zone` below full health, and is otherwise unchanged |
| Geometry.HealingStepKeepsWholeHealthBelowMax | unit.py:91-92 | with whole-point health at most the maximum, the base move keeps health at most the maximum |
| Geometry.WaterStepEntersWater | unit.py:281-289 | the wizard's step is all or nothing; it always enters an in-bounds `mer` cell, and a cell it moves to is never `mur` or `arbre` |
| Geometry.LeapOutcomes | unit.py:169-184 | a case table of the definition: a leap has exactly three outcomes: no move when the intermediate cell is blocked or off the board, the far cell when both are free, the intermediate cell otherwise |
| Geometry.OffsetsAreSquareRing | unit.py:385-388 | the 24 hard-coded offsets are exactly the 5 by 5 square without its centre |
| Geometry.OffsetZoneIsSquareRing | unit.py:379-395 | the invincible's zone is exactly the in-bounds cells at Chebyshev distance 1 or 2, so never its own cell |
| Geometry.RayZoneShape | unit.py:219-234 | ray zones are exactly the in-bounds cells of the unit's row and column at distance lo to hi, and never its own cell when lo >= 1; the archer's Power Arrow (range 2) reaches only distance 2 |
| Geometry.AnnulusExcludesNear | unit.py:421-437 | the bomber's zone holds no cell nearer than max(1, range // 2), so never its own cell; with range 6 only distances 3 to 6 are hit |
| Geometry.DiamondZoneHoldsCentre | unit.py:296-312 | the wizard's zone holds its own cell whenever that cell is on the board |
| Geometry.DiamondMovableShape | unit.py:138-148 | the base movable set is exactly the free cells within Manhattan distance `movement_speed`, blind to paths; it excludes water even for the wizard and holds the current cell when that is free |
| Geometry.SuccessorsAreNeighbours | unit.py:193-212 | one round of the leap search adds, from a cell, exactly its free cardinal neighbours and the free cells two away whose intermediate cell is free |
| Geometry.LeapReachGrows | unit.py:189-213 | the search never loses a cell, so the start cell is always in the result |
| Geometry.LeapReachFree | unit.py:199-213 | every cell the search adds is in bounds and not an obstacle |
| Geometry.LeapReachWithin | unit.py:191-215 | after k rounds every cell is within Manhattan distance 2k of the start, so within 6 for the three hard-coded rounds |
| Geometry.LeapLandsInReach | unit.py:169-215 | where a cardinal leap lands is among the cells the first round of the search offers |
| Units.ProfileTable | unit.py:163-410 | each class has two profiles with power > 0, the special never weaker; speed 3; Power Arrow is (4, 2); Two Blades Style has power 6 and range 2; Lava bomb has power 7.5 and range 6; both swordsman attacks have range 1 |
| Units.MoveKeepsStanding | unit.py:84-418 | every class's move keeps the unit on a cell it may stand on (water only for the wizard); only the swordsman, which keeps the base move, can change health, by one point at most |
| Units.DamageIsChebyshev | unit.py:95-103 | damage is the profile's full power when the target is within range on both axes (Chebyshev distance) and 0 otherwise; Big Slash (range 1) does nothing at distance 2 |
| Units.HealedBounds | unit.py:292-294 | the wizard's heal never lowers health, never exceeds the maximum, adds at most 4, and gives either the maximum or health + 4 |
| Units.CellsOnBoard | unit.py:138-437 | no movable set holds an off-board or obstacle cell except the start cell, and every attack zone lies on the board |
| Units.InvincibleZoneIgnoresIndex | unit.py:321-395 | the invincible's zone is the same for both attacks; only the power differs |
| Units.AddLeap | unit.py:199-212 | the loop body for one displacement adds exactly that displacement's leap step |
| Units.CellsAtOffsets | unit.py:390-393 | the loop over an offset list yields exactly the in-bounds cells at those offsets |
| Units.Unit.constructor | unit.py:50-82 | a unit starts at its cell, at full health, unselected, with its class's profiles and speed on a square map |
| Units.Unit.Move | unit.py:84-418 | the new position and health are what the class's move specifies (base move, leap, water step or plain step) |
| Units.Unit.LeapMove | unit.py:169-184 | the archer's and the invincible's move lands where `Leap` says |
| Units.Unit.Attack | unit.py:95-103 | only the target's health changes, by the damage of the chosen profile |
| Units.Unit.Heal | unit.py:292-294 | the wizard's health becomes min(max_health, health + 4) |
| Units.Unit.GetMovableCells | unit.py:138-375 | the result is the class's movable set: the leap search for archers and invincibles, the diamond filter for the others |
| Units.Unit.DiamondMovableCells | unit.py:138-148 | the nested loops build exactly the diamond filter |
| Units.Unit.LeapMovableCells | unit.py:186-215 | the three rounds of the loop build exactly three rounds of the leap search |
| Units.Unit.AddLeapSuccessors | unit.py:193-212 | the loop over the four displacements adds exactly the successors of one cell |
| Units.Unit.GetAttackableCells | unit.py:219-437 | the result is the class's zone for the chosen attack's range |
| Units.Unit.RayCells | unit.py:219-264 | the ray loops build exactly the ray zone from distance `lo` |
| Units.Unit.DiamondCells | unit.py:300-312 | the wizard's loops build exactly the Manhattan diamond |
| Units.Unit.AnnulusCells | unit.py:425-437 | the bomber's loops build exactly the annulus |
| Units.Unit.OffsetCells | unit.py:383-395 | the invincible's loop builds exactly its offset zone |
| Removal.Kept | game.py:571-575 | the surviving indices are increasing, each is not removed, and every unremoved index is among them |
| Removal.SurvivorsAreKept | game.py:571-575 | after the walk the list holds exactly the unremoved elements in their original order, fewer by the number removed |
| Removal.SurvivorMembership | game.py:571-575 | with distinct elements, an element stays exactly when it was in the list and was not removed |
| Removal.SurvivorsOfDistinct | game.py:571-575 | the survivors of a list without repeats have no repeats and come from the list |
| Removal.WalkStart | game.py:571 | the loop starts on the whole list at index 0, nothing examined yet |
| Removal.WalkLooksAt | game.py:571-572 | the loop runs exactly while original elements are left, examines the next one, and ends holding the survivors |
| Removal.WalkKeeps | game.py:571-573 | when an element stays, the index moves on to the next original element |
| Removal.WalkRemoves | game.py:574-575 | when an element is removed, the next one shifts under the index just used, so the loop next examines the element after it |
| Removal.KilledMeansLethal | game.py:572-575 | the definition of `FateAt` read case by case: an element is removed exactly when it is examined and the blow is lethal; only elements in the zone are examined and struck |
| Removal.SkipsAfterRemoval | game.py:571-575 | the element right after a removed one is never examined, whatever its zone and health |
| Removal.AdjacentKillSkipsNext | game.py:571-575 | an instance of `SkipsAfterRemoval`: two lethal targets side by side in the zone: the first is removed, the second is untouched |
| Removal.VisitedIff | game.py:571-573 | the definition of `FateAt` read case by case: an element is struck exactly when it is in the zone and not right after a removal |
| Removal.SparseZoneIsExact | game.py:571-575 | when no two in-zone elements are adjacent in the list, every in-zone element is struck and every lethal one is removed |
| Protocol.StartPhase | game.py:347-351 | a turn starts in the move phase with budget `movement_speed` exactly when that is positive |
| Protocol.NextWellFormed | game.py:351-394 | every event keeps the move budget positive while in the move phase |
| Protocol.NextCases | game.py:351-448 | an arrow costs one unit of budget whether or not the unit moves; only space and the budget end the move phase; the attack phase ends only on `1`, `2`, `s`, or `l` for a wizard below full health; a finished or quit turn absorbs every event |
| Protocol.ArrowsExhaustBudget | game.py:370-386 | as many arrows as the budget close the move phase, each one moving the unit |
| Protocol.MovesWithinBudget | game.py:351-394 | no event sequence moves a unit more often than its budget, and none after the move phase |
| Protocol.AtMostOneTerminalAction | game.py:398-448 | a turn holds at most one attack or heal, and none once it is over |
| Protocol.FinishedTurnIsFinal | game.py:398-448 | once the turn is finished or quit, no event changes the phase or produces an action |
| Rules.GameGridIsLargeWorld | game.py:18-36 | the game's terrain literal is cell for cell grid.py's large map, hence a 17 by 17 board |
| Rules.StartCellsArePlain | game.py:265-271 | the six starting cells are on the board and are `passage_vert` |
| Rules.StrikeOnlyInZone | game.py:569-573 | a target outside the zone is not attacked, keeps its health and stays in the list |
| Rules.StrikeRemovesTheDead | game.py:572-575 | a target is removed exactly when it was attacked and left with health <= 0; one that stays after an attack has lost exactly the blow and has health left |
| Rules.StrikeKeepsTheLiving | game.py:571-575 | starting from units with health left, the list never grows, holds original units changed only in health and no healthier, and all still have health left |
| Rules.SurvivingBlow | game.py:573-575 | a living target the attack does not remove comes out alive, no healthier, and otherwise unchanged |
| Rules.RespondKeepsActor | game.py:336-448 | answering an event changes neither the side, the acting unit's index, the length of its roster nor the status |
| Rules.Reselect | game.py:341-450 | setting `is_selected` on one unit keeps the roster sound and moves the selection to exactly that unit, or to none |
| Rules.StrikeOk | game.py:569-575 | after an attack the opposing roster is still sound and has nobody selected |
| Rules.PerformOk | game.py:380-447 | moves, attacks and heals keep both rosters sound and the selection on the acting unit |
| Rules.GameStepKeepsInv | game.py:324-567 | every key event keeps the game invariant: units on their own team with health left, standing where they may, exactly the acting unit selected, and a move or attack phase while the game is on |
| Rules.InitialStateOk | game.py:259-273 | the game starts with the invariant, the player's first unit in its move phase with budget 3, and both teams on their starting cells |
| Rules.HealingOvershootInGame | unit.py:84-92 | on the game's own map, from a sound state, a swordsman at 9.5 of 10 that steps onto the healing tile at (2, 16) ends at 10.5, above its maximum (an instance, not a general result) |
| Rules.OverIsFinal | game.py:326-332 | a finished or quit game ignores every further event |
| Rules.RoundStartDecides | game.py:324-334 | the round check ends the game exactly when a roster is empty, looking at the player's roster first, and names as winner the team that still has units |
| Rules.NoCheckBetweenTeams | game.py:324-334 | after the player's last unit, the enemy's first unit begins without any win check |
| Rules.ActionsStayOnTheirSide | game.py:415-447 | an attack never changes the attacker's own team; a move, heal or skip never changes the other team or any other unit of its own |
| Rules.AnnouncedAsWritten | game.py:326-330 | a message is printed exactly when a roster is empty |
| Rules.AnnouncedAsWrittenNamesLoser | game.py:326-330 | as written, when the player's roster is empty the message names joueur 1, which is `'player'`, the team that lost |
| Rules.Announced | game.py:326-330 | the intended message is printed exactly when a roster is empty |
| Rules.AnnouncedNamesWinner | game.py:326-330 | the intended message names a team that still has units while the other has none, and differs from the written one exactly when the game ends |
| Game.NewTeam | game.py:265-271 | a team is three distinct new units of the chosen classes at full health, unselected, on the team's starting cells |
| Game.Place | game.py:198-200 | one unit of the chosen class, built for this game's board, then moved onto its starting cell |
| Game.StrikeTarget | game.py:573 | `attack` on one target changes only that target's health, by the blow |
| Game.WalkTargets | game.py:571-575 | the `for` loop leaves the list holding the survivors and each target as its blow left it |
| Game.HitTarget | game.py:573-575 | the loop body on a target in the zone: it loses the blow, and it is removed exactly when that leaves it with health <= 0, the walk moving on past the next target |
| Game.VisitTarget | game.py:571-575 | one iteration: a target outside the zone is passed over, one inside is hit |
| Game.ExecuteAttack | game.py:569-575 | the list afterwards, read off the objects, is `Rules.StrikeTargets`; it holds distinct units of the original list |
| Game.StrikeSide | game.py:415-420 | the acting unit's zone, then `execute_attack` on the other team; the attacker's team is unchanged |
| Game.Game.constructor | game.py:259-273 | both teams built by `select_units` and placed: the snapshot is `Rules.InitialState`, and the invariant holds |
| Game.Game.BeginTurn | game.py:338-347 | the unit is selected and its turn starts with a fresh budget |
| Game.Game.StartRound | game.py:324-334 | the round check, as `Rules.RoundStart` says |
| Game.Game.NextUnit | game.py:333-338 | the next unit in list order, then the other team, then a new round |
| Game.Game.NextTeam | game.py:333-334 | past a team's last unit: the enemy's first unit after the player's last, otherwise the round check |
| Game.Game.FinishTurn | game.py:450 | the unit is deselected, then the next one begins |
| Game.Game.MoveActing | game.py:380-383 | the acting unit moves as its class says |
| Game.Game.HealActing | game.py:442-448 | the acting wizard heals |
| Game.Game.StrikeActing | game.py:415-420 | keys 1 and 2: the other team's list is left holding the survivors |
| Game.Game.StrikeEnemies | game.py:415-420 | a player's unit attacks the enemy list |
| Game.Game.StrikePlayers | game.py:532-537 | an enemy unit attacks the player list |
| Game.Game.Act | game.py:380-447 | the acting unit's action on the objects is `Rules.Perform` on the snapshot |
| Game.Game.Decide | game.py:364-448 | the phase and action are what `Protocol.Next` gives, with the `l` key's guard |
| Game.Game.RespondTo | game.py:364-448 | the answer to one event on the objects is `Rules.Respond` on the snapshot |
| Game.Game.Settle | game.py:434-450 | a quit is recorded; a finished turn hands over to the next unit |
| Game.Game.Play | game.py:351-448 | one event on the objects is `Rules.GameStep` on the snapshot |
| Game.Game.Step | game.py:324-567 | one event is `Rules.GameStep` on the snapshot, and the invariant is kept |
| Game.PicksAreKeyClasses | game.py:196-200 | the classes picked hold none twice and are exactly the classes the keys 1 to 5 name |
| Game.SelectUnits | game.py:148-204 | reading stops at three classes; the result has no class twice and at most three; with three classes named it has exactly three |
| Prototype.DefaultProfiles | unit_V2.py:74-77 | the default special attack doubles the power and halves the range, rounding down |
| Prototype.SubclassProfiles | unit_V2.py:140-155 | the archer's profiles are (2, 3) and (4, 2); the swordsman's (3, 1) and (6, 1) |
| Prototype.DamageByDistance | unit_V2.py:88-97 | damage is the chosen profile's power exactly when the target is within its range in Chebyshev distance, and 0 otherwise |
| Prototype.RayMember | unit_V2.py:128-132 | a ray holds exactly the in-bounds cells at steps 1 to k in its direction |
| Prototype.RayLength | unit_V2.py:128-132 | a ray holds at most one cell per step |
| Prototype.AttackableIff | unit_V2.py:123-133 | a swordsman or archer can attack exactly the in-bounds cells of its row and column at distance 1 to `attack_range`, never its own cell; a base unit nothing |
| Prototype.AttackableCount | unit_V2.py:123-133 | at most 4 * `attack_range` cells |
| Prototype.WalkRay | unit_V2.py:128-132 | the inner loop appends exactly one ray |
| Prototype.WalkRays | unit_V2.py:127-132 | the outer loop appends the rays in the source's direction order |
| Prototype.Unit.constructor | unit_V2.py:48-77 | a base unit at its cell, at full health, unselected, with the default profiles |
| Prototype.Unit.OfKind | unit_V2.py:135-155 | an archer or swordsman with its class's stats and profiles |
| Prototype.Unit.Move | unit_V2.py:80-86 | the move is a plain step on the fixed 17 by 17 board; health is untouched |
| Prototype.Unit.Attack | unit_V2.py:88-97 | only the target's health changes, by the damage of the chosen profile; a negative index counts from the end |
| Prototype.Unit.GetAttackableCells | unit_V2.py:123-133 | the result is `AttackableCells` for the unit's class and `attack_range` |
| Prototype.Sign | test2.py:89-90 | the step on one axis is -1, 0 or 1, positive exactly toward a larger coordinate and negative exactly toward a smaller one |
| Prototype.ChaseCloses | test2.py:89-91 | the chase moves the enemy at most one cell, diagonals included, and changes nothing else; it never increases the distance to the target, and a step taken shortens it by one |
| Prototype.Pick | test2.py:88 | the chosen index is always in the non-empty list, and every index can be chosen |
| Prototype.AttackedFacts | test2.py:92-95 | a player is hurt only when the enemy is adjacent after moving; only the target is hurt, by the blow; it leaves the list exactly when that leaves it with health <= 0; living players stay living |
| Prototype.EnemyTurnAhead | test2.py:87-95 | enemies not reached yet in the loop are untouched |
| Prototype.EnemyTurnStep | test2.py:87-91 | one iteration moves only the acting enemy, by its chase toward the chosen player |
| Prototype.EnemyTurnOthers | test2.py:87-91 | an iteration leaves every enemy except the acting one as it was |
| Prototype.EnemyTurnOwnMove | test2.py:89-91 | in its own iteration an enemy moves at most one cell and keeps its health and profiles |
| Prototype.EnemyTurnMoves | test2.py:86-95 | over the whole enemy turn every enemy moves at most one cell and keeps its health and profiles |
| Prototype.EnemyTurnPlayersStep | test2.py:88-95 | one iteration changes the player list only by the acting enemy's attack, and fails exactly on an empty list |
| Prototype.EnemyTurnPlayers | test2.py:86-95 | over the whole enemy turn the player list only shrinks and, starting with living units, keeps only living units |
| Prototype.EnemyTurnCrash | test2.py:88 | the turn fails only with an empty player list, and always does when it starts with one |
| Prototype.CrashPersists | test2.py:88 | once `random.choice` has failed, nothing further happens |
| Prototype.SpaceStrikeFacts | test2.py:77-83 | on space, an enemy that is not adjacent is neither hit nor removed; the list shrinks by the number removed; living enemies left are living |
| Prototype.SpaceSkipsAfterRemoval | test2.py:78-82 | the enemy right after a removed one is neither hit nor removed |
| Prototype.PlayerKeyFacts | test2.py:63-84 | a key never touches another player unit or the unit's health; a key that is not an arrow, space included, leaves the unit in place; only space attacks, and it ends the turn with the unit deselected |
| Prototype.MoveOne | test2.py:74 | `move` changes only that unit's position, as the step says |
| Prototype.MarkOne | test2.py:54 | `is_selected` changes on that unit only |
| Prototype.DropOne | test2.py:95 | `list.remove` of a unit held once drops exactly its index and keeps the rest in order |
| Prototype.StrikeOne | test2.py:80 | `attack` changes only the target's health, by the blow |
| Prototype.HitEnemy | test2.py:80-82 | an attacked enemy is removed exactly when its health is <= 0, and the loop moves on as the walk says |
| Prototype.VisitEnemy | test2.py:79-82 | one iteration of the space-bar loop, as the walk says |
| Prototype.WalkEnemies | test2.py:78-82 | the loop leaves the list holding the survivors and each enemy as its blow left it |
| Prototype.StrikeAdjacent | test2.py:77-83 | the enemy list afterwards, read off the objects, is `SpaceStrike` |
| Prototype.Recruit | test2.py:44-48 | a base unit with the given health and power, range 1 and the default profiles |
| Prototype.Muster | test2.py:44-48 | two distinct new base units of one team at the two cells |
| Prototype.Game.constructor | test2.py:42-48 | two players with health 10 and power 2 at (0,0) and (1,0); two enemies with health 8 and power 1 at (16,16) and (15,16); no unit on both sides |
| Prototype.Game.SelectForTurn | test2.py:54 | the player unit is selected; nothing else changes |
| Prototype.Game.PressKey | test2.py:63-84 | the lists after one event are what `PlayerKey` says |
| Prototype.Game.MovePlayer | test2.py:64-74 | the unit moves by its arrow step, (0, 0) for other keys |
| Prototype.Game.SpaceBar | test2.py:77-84 | the adjacent enemies are attacked and the dead removed, then the unit is deselected |
| Prototype.Game.StrikeFrom | test2.py:78-82 | the enemy list afterwards is `SpaceStrike` of the attacker and the list before |
| Prototype.Game.HandleEnemyTurn | test2.py:86-95 | both lists afterwards, and whether `random.choice` failed, are what `EnemyTurn` says, with the object structure kept |
| Prototype.Game.EnemyIteration | test2.py:87-95 | one iteration advances `EnemyTurn` by one step, and a failure ends the turn |
| Prototype.Game.EnemyActs | test2.py:89-95 | the enemy and the player list afterwards are what `EnemyAct` says |
| Prototype.Game.ChaseTarget | test2.py:89-91 | the enemy moves by `Chase`; the players are untouched |
| Prototype.Game.HitPlayer | test2.py:92-95 | the player list afterwards is `Attacked` |
| Prototype.Game.AttackPlayer | test2.py:93-95 | the adjacent target loses the blow and is removed when that leaves it with health <= 0 |
| Prototype.Game.RemovePlayer | test2.py:95 | the player list loses exactly the unit at that index |

## Left out

- Rendering, menus, the instructions screen, images, audio and `wrap_text`: these are display and foreign I/O.
  `Grill.__init__` only stores what `generer_monde` returns, so the image is left out of `Worlds.World`.
- Image loading errors (`pygame.error` turned into `FileNotFoundError`): these are foreign I/O; only the two `ValueError` cases are modelled.
- Event batching: each `pygame.event.get()` batch is fed one event at a time.
  Events that follow the end of the budget or an attack in the same batch are not replayed.
- Quitting (window close, `e`): `pygame.quit(); exit()` is an absorbing `Quit` phase and an `Abandoned` status.
- The `K_SPACE and selected_attack_type is not None` branches of the attack phase (game.py:422-432, 539-549) are left out.
  They never run, because `selected_attack_type` stays `None`.
- `defense`: it is read by the display (game.py:674) but is never defined and never used in combat.
- The stat and attack strings of `select_units`: they are text only.
- Floating-point powers (4 * 1.5, 5 * 1.5) are exact `real`s, and so are health values.
- `grid_size` is the constant 17 passed to every unit.
  game.py:200 calls the constructors without it, so the calls as written would fail.
- Prototype.Game.constructor: test2.py:44-48 builds `unit.Unit`, which is abstract and takes a different signature.
  The model builds the unit_V2 base unit the call was written for, on game.py's terrain literal, which test2.py repeats.
- Prototype.Unit.Move: requires a 17 by 17 map.
  On a smaller map the lookup would raise `IndexError`, and that error is not modelled.
- Prototype.Game.HandleEnemyTurn: `random.choice` is replaced by the parameter `picks`.
  Enemy `j` attacks player `Pick(picks[j], n)`, and every index of the list can be named that way.
  The failure of `random.choice` on an empty list is the `crashed` result.
- The player loop of test2.py (`for selected_unit in self.player_units` and `while not has_acted`) is left out.
  The model gives `Prototype.Game.SelectForTurn` and `Prototype.Game.PressKey` for one unit and one event.
  The loop that feeds them is not modelled.
- The `start_game` loop as a whole is not one method.
  The same schedule is `Rules.GameStep`, taken one event at a time by `Game.Game.Step`.
- Prototype.Fits and Game.Fits state only what the attack and movement code reads (a non-empty attack list, the game's board).
  The other constants of a unit come from their constructors.
- The legacy main loop of test2.py (`main`), and the module-level image loads of game.py and test2.py, are left out as I/O.

## Findings

| source | as written | input that shows it | evidently intended | confidence | as-written member | corrected member |
|---|---|---|---|---|---|---|
| game.py:326-330 | when `player_units` is empty the game prints "Le joueur 1 a gagné !"; the instructions (game.py:290) call `'player'` joueur 1, so the team with no units is named the winner (and the other message likewise names the enemy when it has lost) | `player_units == []`, `enemy_units` holding one unit | name the team that still has units: joueur 2 when the player's roster is empty, joueur 1 when the enemy's is | high (not executed) | Rules.AnnouncedAsWrittenNamesLoser | Rules.AnnouncedNamesWinner |
