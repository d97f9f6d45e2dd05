# Battle engine of the agent-based battle game

This project models the battle engine of `app.py` in Dafny. In that engine, agents of several teams sit on a torus grid. Each tick, every agent in the schedule moves to a random cell of its Moore neighbourhood and fights the rivals it finds there. The model covers three parts:

- `BattleAgent.__init__` and `BattleAgent.step`;
- `BattleModel.__init__`, `step`, `count_teams` and `get_agents_positions`;
- the run loop that ticks the model until one team is left or the step budget runs out, recording a snapshot after every tick.

Layout:

- `grid.dfy` (module `Grid`) holds cells, the occupancy index and the Moore neighbourhood with wrap-around.
  - `Neighborhood` is the computable candidate list.
  - `NeighborhoodIsMooreTorus` proves that it is exactly the set of cells reached by an offset of at most `radius` on both axes, taken modulo the grid size, without the centre.
- `battle.dfy` (module `Battle`) holds the engine's rules as functions on values:
  - the `Agent` and `World` records and the state invariant `Valid`;
  - the pairwise fight `Duel`, the cellmate loop `Fights` and an agent's turn `AgentStep`;
  - the tick `Tick` and the initial population `Populate`.
- `queries.dfy` (module `Queries`) holds what the host reads: `CountTeams` and `Positions`. It also holds `Recorded`, the relation between the states and snapshots of a run.
- `engine.dfy` (module `Engine`) is the object the host drives. `BattleModel` is a class whose fields (the agents, the schedule and the occupancy index) its methods update in place. Each method that changes the object is proved to leave the state that the matching `Battle` function computes. `GetAgentsPositions` and its loop `CollectReports` change nothing and return `Queries.Positions` of the state. `RunSimulation` is the run loop, proved to produce a run that satisfies `Queries.Recorded`.
- `properties.dfy` (module `Properties`) holds facts that span several rules or ticks.

Modelling decisions:

- **Randomness is input.** Each agent's team, strength, health and start cell come in a `Recruit`. The ranges of `app.py:57-59` become `RecruitOk`. The start cell must lie on the grid, because `random_pos` is not defined in `app.py`. A move is chosen by a natural-number `draw`: the candidate at index `draw % |candidates|`. `draws[t][i]` is agent `i`'s draw in tick `t`.
- **Agents are records in a sequence indexed by id.** An agent has two kinds of position:
  - `x` and `y` are assigned once (`app.py:16`) and never updated;
  - `pos` is the grid's own record, which `move_agent` and `remove_agent` change.

  As `app.py` is written, the neighbourhood is therefore always taken around the agent's start cell (`app.py:21-22`). `get_agents_positions` also reports start cells (`app.py:77`). The model keeps both behaviours (`MoverLeavesReportedCell`, `ReportsAreStartCells`). This contradicts the docstring of `get_agents_positions` (`app.py:74`), which promises current positions. `MoverLeavesReportedCell` shows the difference: a mover that survives stands on a cell other than the one reported for it.
- **Occupancy is a map from cells to sets of ids.** Each agent is placed twice, once in `BattleAgent.__init__` (`app.py:17`) and once in `BattleModel.__init__` (`app.py:61`). The second placement has no effect (`PlaceAgentTwice`).
- **Order of iteration.** The schedule activates agents in ascending id and skips agents removed earlier in the same tick. `advance` is the library's no-op. Cellmates are met in ascending id; this order is the model's choice (see "## Left out"). Candidates are listed column by column, in ascending `(x, y)`.
- **Health never changes.** Only the winner's strength changes, by exactly one.

## Model

| member | source | states |
|---|---|---|
| Grid.Place | app.py:17 | Registering an agent at a cell adds its id to that cell and leaves every other cell as it was. |
| Grid.Remove | app.py:35 | Deregistering removes the id from that cell only. Removing an id that is not there changes nothing. |
| Grid.Occupants | app.py:29 | The agents on a cell: the set the occupancy index holds for it, empty for a cell it has no entry for. |
| Grid.PlaceTwice | app.py:61 | Placing an id on the cell it already occupies does not change the occupancy index. |
| Grid.Neighborhood | app.py:21-23 | The candidates are exactly the on-grid cells within torus distance `radius` on both axes. Each is listed once, and the centre is never listed. |
| Grid.NeighborhoodIsMooreTorus | app.py:21-23 | A cell is a candidate iff it differs from the centre and equals the centre shifted by some `(dx, dy)` with `abs(dx), abs(dy) <= radius`, coordinates wrapped modulo width and height. |
| Grid.SingleCellHasNoNeighbors | app.py:21-24 | On a 1 x 1 torus every offset wraps back to the excluded centre, so there are no candidates. |
| Battle.PlaceAgent | app.py:17 | `place_agent`: the agent's recorded position becomes the cell, its id joins that cell's occupants, and no other cell or agent changes. |
| Battle.Unplace | app.py:35 | `remove_agent` (of the rival here, of the mover at line 40): the agent's recorded position is cleared, its id leaves the cell it stood on, and no other cell or agent changes. |
| Battle.PlaceAgentTwice | app.py:61 | The model's second `place_agent` of a new agent leaves the state unchanged. |
| Battle.Eliminate | app.py:35-36 | A loser leaves the grid and then the schedule. The state stays valid, only the loser's position and schedule membership change, and nothing persistent changes. |
| Battle.MoveTo | app.py:26 | `move_agent` changes only the mover's grid position. The index stays consistent and the schedule is unchanged. |
| Battle.Reward | app.py:37 | The winner's strength rises by exactly one. Nothing else changes. |
| Battle.Rivals | app.py:31 | The mover fights a cellmate only when it is another agent of another team. |
| Battle.Duel | app.py:31-43 | With the mover itself or a team-mate, nothing happens. If the mover's strength exceeds the rival's health, the rival is removed, the mover gains exactly one point and the loop goes on. Otherwise, if the rival's strength exceeds the mover's health, the mover is removed, the rival gains exactly one point and the loop stops. Otherwise nothing changes. Agents other than the two are untouched. |
| Battle.Fights | app.py:29-43 | Team-mates and agents that are not cellmates keep their records and schedule membership. A surviving mover keeps its cell. The state stays valid and only evolves. |
| Battle.AscendingIds | app.py:29 | Lists exactly the members of the set below `n`, strictly ascending (the cellmate and schedule order). |
| Battle.Moves | app.py:21-23 | The movement candidates are the torus Moore neighbourhood of radius `move_distance`, taken round the agent's creation cell `(x, y)`, which is never updated. |
| Battle.Destination | app.py:25 | The drawn cell is one of the candidates. |
| Battle.AgentStep | app.py:19-43 | An agent's turn keeps the state valid and only evolves it. With no candidate, nothing changes. A mover that survives stands on the drawn candidate. |
| Battle.AgentStepTouchesOnlyRivalsThere | app.py:29-43 | An agent other than the mover changes only if there was a candidate and it was a rival standing on the drawn cell. |
| Battle.TickFrom | app.py:64-66 | The remaining turns of a tick keep the state valid and the roster of agents unchanged. |
| Battle.TickFromEvolves | app.py:64-66 | Over a tick, no health, team, id or start cell changes. No strength decreases, and the schedule only loses members. |
| Battle.Tick | app.py:64-66 | A tick keeps the state valid and only evolves it. |
| Battle.RecruitOk | app.py:57-59 | The ranges the random draws for a new agent come from: a team of the roster, strength 1 to 10, health 5 to 20, and a start cell on the grid. |
| Battle.Recruited | app.py:10-16 | A new agent takes its id, team, strength, health and start cell from its draws and the model's move distance, and is not yet on the grid. |
| Battle.Enlist | app.py:10-17 | Creating an agent appends one record, built from its recruit, with the next id. The agent stands on its start cell and joins the schedule, and the state stays valid. |
| Battle.Populate | app.py:48-62 | The constructed model is valid, with the given grid size, team roster and move distance. |
| Battle.PopulateAgents | app.py:56-62 | The constructed model holds one agent per recruit. Agent `i` is built from recruit `i` and stands on its start cell, and every agent is scheduled. |
| Queries.CountTeams | app.py:68-71 | The count of distinct live teams is at most the roster size. It is 0 iff nobody is alive, and at most 1 iff all live agents share one team. |
| Queries.LiveTeams | app.py:70 | The set of teams of the agents still in the schedule. |
| Queries.LiveIds | app.py:76 | The schedule order lists every live id exactly once. |
| Queries.Report | app.py:77 | What is reported for an agent: its `(x, y)` and its team. |
| Queries.Positions | app.py:73-78 | One report per live agent. |
| Queries.PositionsReportLive | app.py:73-78 | Every report is the `(x, y, team)` of a live agent, and every live agent is reported. |
| Queries.RecordedNext | app.py:102-107 | A recorded run extended by one more tick, taken while at least two teams are alive, and by the snapshot of its result is still a recorded run. |
| Engine.BattleModel.constructor | app.py:48-62 | The new object's state is `Populate` of the recruits, and it is valid. |
| Engine.BattleModel.PlaceAgent | app.py:17 | The object's new state is the old one with the agent placed on the cell. |
| Engine.BattleModel.RemoveAgent | app.py:35 | The object's new state is the old one with the agent taken off the grid. |
| Engine.BattleModel.MoveAgent | app.py:26 | The object's new state is the old one with the agent taken off the grid and placed on the new cell. |
| Engine.BattleModel.AddAgent | app.py:57-62 | The object's new state is `Enlist` of the old one and the recruit. |
| Engine.BattleModel.AgentStep | app.py:19-43 | In-place turn: the object's new state is `Battle.AgentStep` of the old one, and it is valid. |
| Engine.BattleModel.MeetAll | app.py:29-43 | The loop over cellmates, with its `break`, leaves the state `Fights` computes. |
| Engine.BattleModel.Meet | app.py:31-43 | One pass of the loop leaves the state `Duel` computes and reports whether the loop breaks. |
| Engine.BattleModel.Step | app.py:64-66 | In-place tick: the object's new state is `Tick` of the old one, and it is valid. |
| Engine.BattleModel.GetAgentsPositions | app.py:73-78 | Returns `Positions` of the object's state. |
| Engine.BattleModel.CollectReports | app.py:75-78 | The loop reports the live agents in ascending id. |
| Engine.RunSimulation | app.py:102-107 | The returned snapshots and the trace of states form a recorded run from the initial population: every recorded tick started with at least two teams alive, and snapshot `k` reports the state after tick `k`. There are at most `steps` snapshots. A run shorter than `steps` ends in a state with at most one team. |
| Properties.NoResurrection | app.py:34-41 | An agent out of the schedule stays out, stays off the grid and is never reported again. |
| Properties.CountTeamsNeverGrows | app.py:68-71 | The number of live teams never grows. |
| Properties.RecordedEvolves | app.py:102-107 | Every later state of a recorded run is an evolution of every earlier one. |
| Properties.RunIsMonotone | app.py:102-107 | Along a run, the team count never grows, and an agent removed earlier is absent from every later schedule, grid and report list. |
| Properties.ReportsAreStartCells | app.py:73-78 | In any state reached from the initial agents, every report is the team and start cell drawn for a live agent's recruit. |
| Properties.SnapshotsReportStartCells | app.py:102-107 | Every entry of every snapshot of a run is the team and start cell drawn for a live agent's recruit. |
| Properties.MoverLeavesReportedCell | app.py:21-26 | A surviving mover stands on a candidate cell other than its start cell, while its report is still its start cell. |
| Properties.LossEndsFights | app.py:38-43 | After the mover loses, it is out of the schedule and the cellmates after that rival are untouched. |
| Properties.FightsWithoutRivals | app.py:30-31 | Meeting only team-mates, or oneself, changes nothing. |
| Properties.AllOnTeamStays | app.py:68-71 | If every live agent is on one team, that stays true in every later state. |
| Properties.OneTeamTurnOnlyMoves | app.py:19-43 | With one team left, an agent's turn is movement only: the state is exactly the move's result, or unchanged when there is no candidate. |
| Properties.OneTeamTurnsOnlyMove | app.py:64-66 | With one team left, the remaining turns of a tick remove nobody and change no agent's record except its grid position. |
| Properties.OneTeamTickOnlyMoves | app.py:64-66 | Once `count_teams` is at most 1, a tick removes nobody and changes no strength or other field except grid positions. |
| Properties.LoneRivalFalls | app.py:21-37 | A mover whose drawn cell holds exactly one rival, whose health the mover's strength exceeds, removes that rival from the grid and the schedule, gains exactly one point and stands on the drawn cell. |
| Properties.LoneFight | app.py:29-37 | The cellmate loop over the mover and one such rival, in either id order, removes the rival and rewards the mover. |
| Properties.SingleCellTurnStandsStill | app.py:21-24 | On a 1 x 1 torus an agent's turn changes nothing. |
| Properties.SingleCellTickStandsStill | app.py:64-66 | On a 1 x 1 torus a tick changes nothing. |

## Left out

- The Streamlit page is not modelled: sliders, buttons, the "Game Over!" message, the step-scrubbing slider and the other text output (`app.py:81-96`, `104`, `113`, `139`). They are interactive I/O.
- The colour grid drawn with matplotlib and numpy (`app.py:109-137`) is not modelled. It is display only and uses floating point.
- Python's `random` and the model's own random source are replaced by inputs. `Recruit` carries the drawn team, strength, health and start cell, and `draw` picks the move. Uniformity of the draws is not modelled.
- `random_pos` (`app.py:16`) is not defined in `app.py`. The start cell is an input that must lie on the grid.
- mesa's internals are not part of this model. The model assumes the following about them:
  - `MultiGrid` is an occupancy map whose cells hold sets of ids;
  - `get_neighborhood` lists candidates in ascending `(x, y)`;
  - cellmates are met in ascending id. This is the model's choice: the library most likely returns them in arrival order, with the mover last. With two or more rivals on a cell, `AgentStep`'s exact result depends on this order. For example, take a mover with strength 6 and health 5, and two rivals on its cell: rival A with strength 10 and health 6, and rival B with strength 1 and health 5. If it meets A first, it loses and is removed. If it meets B first, it wins, its strength rises to 7, and it then beats A too. `LoneFight` holds for both orders;
  - `SimultaneousActivation.step` runs the agents in ascending id, skips removed ones and then calls the default no-op `advance`;
  - `schedule.remove` removes the id from a set.

  mesa's step and time counters are not modelled.
- An empty team roster makes `random.choice(teams)` raise at `app.py:57` before any agent exists. This can happen when every team is deselected at `app.py:88`. `RecruitOk` requires each agent's team to be in the roster, so the constructor, `Populate` and `RunSimulation` model only runs that start with at least one team whenever at least one agent is created. The error path itself is not modelled.
- Only the torus grid built at `app.py:50` is modelled. Grids without wrap-around are not.
- Agents are records addressed by id, not shared objects. Python aliasing between `self`, `other` and the grid's references is not represented: every update goes through the id.
- The `states` trace returned by `RunSimulation` exists only for the proof. The host only sees the snapshots.
