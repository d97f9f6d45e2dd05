/** The battle engine's state and its rules, as functions on values: the
    pairwise fight, an agent's tick (move, then fight the cellmates), the
    model's tick (every live agent in id order) and the initial population.
    BattleModel (engine.dfy) performs the same rules in place and is proved
    to agree with these functions. */
module Battle {
  import opened Grid

  datatype Option<T> = None | Some(value: T)

  type Team = string

  /** One combatant. `x`, `y` is the cell the agent was created on; they are
      assigned once and never updated. `pos` is the grid's own record of
      where the agent stands, `None` once it has been taken off the grid. */
  datatype Agent = Agent(id: nat, team: Team, strength: int, health: int,
                         moveDistance: nat, x: int, y: int, pos: Option<Cell>)

  function Start(a: Agent): Cell {
    Cell(a.x, a.y)
  }

  /** The model: the torus, the team roster, every agent ever created (the
      agent with id i at index i), the ids still in the schedule, and the
      grid's occupancy index. */
  datatype World = World(width: nat, height: nat, teams: seq<Team>, moveDistance: nat,
                         agents: seq<Agent>, live: set<nat>, cells: Occupancy)

  /** The state invariant: ids match indices, teams come from the roster,
      start cells lie on the grid, an agent is on the grid exactly when it is
      in the schedule, and the occupancy index agrees with every agent's
      recorded position (no stale or dangling entries). */
  ghost predicate Valid(w: World) {
    (forall i :: 0 <= i < |w.agents| ==>
       w.agents[i].id == i && w.agents[i].team in w.teams &&
       InBounds(w.width, w.height, Start(w.agents[i]))) &&
    (forall i :: i in w.live ==> i < |w.agents|) &&
    (forall i :: 0 <= i < |w.agents| ==> (w.agents[i].pos.Some? <==> i in w.live)) &&
    (forall i :: 0 <= i < |w.agents| && w.agents[i].pos.Some? ==>
       InBounds(w.width, w.height, w.agents[i].pos.value)) &&
    (forall c :: Occupants(w.cells, c) == AgentsAt(w.agents, c))
  }

  /** The ids of the agents whose recorded position is `c`. */
  function AgentsAt(agents: seq<Agent>, c: Cell): set<nat> {
    set i: nat | i < |agents| && agents[i].pos == Some(c)
  }

  /** What no rule ever changes about an agent, and that strength only grows. */
  ghost predicate Persists(a: Agent, b: Agent) {
    b.id == a.id && b.team == a.team && b.health == a.health &&
    b.moveDistance == a.moveDistance && b.x == a.x && b.y == a.y &&
    a.strength <= b.strength
  }

  /** `v` is a possible later state of `w`: same grid, roster and agents,
      every agent persists, and the schedule has only lost members. */
  ghost predicate Evolves(w: World, v: World) {
    v.width == w.width && v.height == w.height && v.teams == w.teams &&
    v.moveDistance == w.moveDistance &&
    |v.agents| == |w.agents| && v.live <= w.live &&
    forall i :: 0 <= i < |w.agents| ==> Persists(w.agents[i], v.agents[i])
  }

  lemma EvolvesTransitive(u: World, v: World, w: World)
    requires Evolves(u, v) && Evolves(v, w)
    ensures Evolves(u, w)
  {
  }

  // ---------------------------------------------------------------------
  // Grid and schedule primitives

  /** The grid's place_agent: register the id at `c` and record `c` as the
      agent's position. */
  function PlaceAgent(w: World, i: nat, c: Cell): (r: World)
    requires i < |w.agents|
    ensures r.agents == w.agents[i := w.agents[i].(pos := Some(c))] && r.live == w.live
    ensures Occupants(r.cells, c) == Occupants(w.cells, c) + {i}
    ensures forall d :: d != c ==> Occupants(r.cells, d) == Occupants(w.cells, d)
  {
    w.(cells := Place(w.cells, i, c), agents := w.agents[i := w.agents[i].(pos := Some(c))])
  }

  /** Placing an agent a second time on the cell it already occupies has no
      effect. */
  lemma PlaceAgentTwice(w: World, i: nat, c: Cell)
    requires i < |w.agents|
    ensures PlaceAgent(PlaceAgent(w, i, c), i, c) == PlaceAgent(w, i, c)
  {
    PlaceTwice(w.cells, i, c);
  }

  /** The grid's remove_agent: deregister the id from its cell and clear its
      position. */
  function Unplace(w: World, i: nat): (r: World)
    requires i < |w.agents| && w.agents[i].pos.Some?
    ensures r.agents == w.agents[i := w.agents[i].(pos := None)] && r.live == w.live
    ensures Occupants(r.cells, w.agents[i].pos.value) == Occupants(w.cells, w.agents[i].pos.value) - {i}
    ensures forall d :: d != w.agents[i].pos.value ==> Occupants(r.cells, d) == Occupants(w.cells, d)
  {
    w.(cells := Remove(w.cells, i, w.agents[i].pos.value),
       agents := w.agents[i := w.agents[i].(pos := None)])
  }

  /** A loser leaves the grid and then the schedule. */
  function Eliminate(w: World, i: nat): (r: World)
    requires Valid(w) && i < |w.agents| && w.agents[i].pos.Some?
    ensures Valid(r) && Evolves(w, r)
    ensures r.live == w.live - {i}
    ensures r.agents == w.agents[i := w.agents[i].(pos := None)]
  {
    EliminateKeepsValid(w, i);
    Unplace(w, i).(live := w.live - {i})
  }

  lemma EliminateKeepsValid(w: World, i: nat)
    requires Valid(w) && i < |w.agents| && w.agents[i].pos.Some?
    ensures Valid(Unplace(w, i).(live := w.live - {i}))
  {
    var r := Unplace(w, i).(live := w.live - {i});
    var p := w.agents[i].pos.value;
    forall c ensures Occupants(r.cells, c) == AgentsAt(r.agents, c) {
      if c == p {
        assert AgentsAt(r.agents, c) == AgentsAt(w.agents, c) - {i};
      } else {
        assert AgentsAt(r.agents, c) == AgentsAt(w.agents, c);
      }
    }
  }

  /** The grid's move_agent: leave the current cell, register at `c`. */
  function MoveTo(w: World, i: nat, c: Cell): (r: World)
    requires Valid(w) && i < |w.agents| && w.agents[i].pos.Some?
    requires InBounds(w.width, w.height, c)
    ensures Valid(r) && Evolves(w, r) && r.live == w.live
    ensures r.agents == w.agents[i := w.agents[i].(pos := Some(c))]
  {
    MoveKeepsValid(w, i, c);
    PlaceAgent(Unplace(w, i), i, c)
  }

  lemma MoveKeepsValid(w: World, i: nat, c: Cell)
    requires Valid(w) && i < |w.agents| && w.agents[i].pos.Some?
    requires InBounds(w.width, w.height, c)
    ensures Valid(PlaceAgent(Unplace(w, i), i, c))
  {
    var r := PlaceAgent(Unplace(w, i), i, c);
    var p := w.agents[i].pos.value;
    forall d ensures Occupants(r.cells, d) == AgentsAt(r.agents, d) {
      if d == c {
        assert AgentsAt(r.agents, d) == (AgentsAt(w.agents, d) - {i}) + {i};
      } else if d == p {
        assert AgentsAt(r.agents, d) == AgentsAt(w.agents, d) - {i};
      } else {
        assert AgentsAt(r.agents, d) == AgentsAt(w.agents, d);
      }
    }
  }

  /** The winner of a fight gains one point of strength. */
  function Reward(w: World, i: nat): (r: World)
    requires Valid(w) && i < |w.agents|
    ensures Valid(r) && Evolves(w, r) && r.live == w.live
    ensures r.agents == w.agents[i := w.agents[i].(strength := w.agents[i].strength + 1)]
  {
    var r := w.(agents := w.agents[i := w.agents[i].(strength := w.agents[i].strength + 1)]);
    assert forall c :: AgentsAt(r.agents, c) == AgentsAt(w.agents, c);
    r
  }

  // ---------------------------------------------------------------------
  // Fighting

  /** `o` is someone `me` fights: another agent, of another team. */
  predicate Rivals(w: World, me: nat, o: nat)
    requires me < |w.agents| && o < |w.agents|
  {
    o != me && w.agents[o].team != w.agents[me].team
  }

  /** One cellmate `o` met by the mover `me`. Returns the new state and
      whether the mover's loop over its cellmates stops. */
  function Duel(w: World, me: nat, o: nat): (r: (World, bool))
    requires Valid(w) && me < |w.agents| && o < |w.agents|
    ensures Valid(r.0) && Evolves(w, r.0)
    ensures forall j :: 0 <= j < |w.agents| && j != me && j != o ==> r.0.agents[j] == w.agents[j]
    ensures me in r.0.live ==> r.0.agents[me].pos == w.agents[me].pos
    // the mover itself, or a team-mate: nothing happens
    ensures !Rivals(w, me, o) ==> r == (w, false)
    // the mover's strength beats the rival's health: the rival is gone, the
    // mover gains exactly one point, and the loop goes on
    ensures Rivals(w, me, o) && w.agents[me].strength > w.agents[o].health ==>
              !r.1 && r.0.live == w.live - {o} && r.0.agents[o].pos == None &&
              r.0.agents[o].strength == w.agents[o].strength &&
              r.0.agents[me] == w.agents[me].(strength := w.agents[me].strength + 1)
    // otherwise the rival's strength beats the mover's health: the mover is
    // gone, the rival gains exactly one point, and the loop stops
    ensures (Rivals(w, me, o) && w.agents[me].strength <= w.agents[o].health &&
             w.agents[o].strength > w.agents[me].health) ==>
              r.1 && r.0.live == w.live - {me} && r.0.agents[me].pos == None &&
              r.0.agents[me].strength == w.agents[me].strength &&
              r.0.agents[o] == w.agents[o].(strength := w.agents[o].strength + 1)
    // neither threshold is exceeded: nothing changes
    ensures (Rivals(w, me, o) && w.agents[me].strength <= w.agents[o].health &&
             w.agents[o].strength <= w.agents[me].health) ==> r == (w, false)
  {
    var a, b := w.agents[me], w.agents[o];
    if !Rivals(w, me, o) then (w, false)
    else if a.strength > b.health then
      var v := if b.pos.Some? then Eliminate(w, o) else w;
      var r := Reward(v, me);
      EvolvesTransitive(w, v, r);
      (r, false)
    else if b.strength > a.health then
      var v := if a.pos.Some? then Eliminate(w, me) else w;
      var r := Reward(v, o);
      EvolvesTransitive(w, v, r);
      (r, true)
    else (w, false)
  }

  /** The mover `me` meets its cellmates in the order given, until it loses. */
  function Fights(w: World, me: nat, mates: seq<nat>): (r: World)
    requires Valid(w) && me < |w.agents|
    requires forall k :: 0 <= k < |mates| ==> mates[k] < |w.agents|
    ensures Valid(r) && Evolves(w, r)
    // only the mover and rivals among the cellmates can be affected
    ensures forall j :: 0 <= j < |w.agents| && j != me &&
                        (j !in mates || w.agents[j].team == w.agents[me].team) ==>
              r.agents[j] == w.agents[j] && (j in r.live <==> j in w.live)
    ensures me in r.live ==> r.agents[me].pos == w.agents[me].pos
    decreases |mates|
  {
    if mates == [] then w
    else
      var (v, stop) := Duel(w, me, mates[0]);
      if stop then v
      else
        var r := Fights(v, me, mates[1..]);
        EvolvesTransitive(w, v, r);
        r
  }

  /** The ids of `s` below `n`, in ascending order. */
  function AscendingIds(s: set<nat>, n: nat): (r: seq<nat>)
    ensures forall i :: i in r <==> i in s && i < n
    ensures forall j :: 0 <= j < |r| ==> r[j] < n
    ensures forall j, k :: 0 <= j < k < |r| ==> r[j] < r[k]
  {
    if n == 0 then []
    else AscendingIds(s, n - 1) + (if n - 1 in s then [n - 1] else [])
  }

  // ---------------------------------------------------------------------
  // Ticks

  /** The movement candidates of agent `id`: its neighbourhood, taken round
      its starting cell (x, y). */
  function Moves(w: World, id: nat): seq<Cell>
    requires Valid(w) && id < |w.agents|
  {
    Neighborhood(w.width, w.height, Start(w.agents[id]), w.agents[id].moveDistance)
  }

  /** The candidate the random draw selects. */
  function Destination(w: World, id: nat, draw: nat): (d: Cell)
    requires Valid(w) && id < |w.agents| && Moves(w, id) != []
    ensures d in Moves(w, id)
  {
    var moves := Moves(w, id);
    moves[draw % |moves|]
  }

  /** One agent's tick: move to the drawn candidate, if there is one, then
      meet the agents on the new cell in ascending id order. */
  function AgentStep(w: World, id: nat, draw: nat): (r: World)
    requires Valid(w) && id in w.live
    ensures Valid(r) && Evolves(w, r)
    // no candidate: no move, no fight
    ensures Moves(w, id) == [] ==> r == w
    // a surviving mover stands on the drawn candidate
    ensures id in r.live && Moves(w, id) != [] ==> r.agents[id].pos == Some(Destination(w, id, draw))
  {
    if Moves(w, id) == [] then w
    else
      var dest := Destination(w, id, draw);
      var v := MoveTo(w, id, dest);
      var r := Fights(v, id, AscendingIds(Occupants(v.cells, dest), |v.agents|));
      EvolvesTransitive(w, v, r);
      r
  }

  /** An agent other than the mover changes during the mover's tick only if
      it is a rival that was standing on the destination. */
  lemma AgentStepTouchesOnlyRivalsThere(w: World, id: nat, draw: nat, j: nat)
    requires Valid(w) && id in w.live && j < |w.agents| && j != id
    requires AgentStep(w, id, draw).agents[j] != w.agents[j]
    ensures Moves(w, id) != [] && Rivals(w, id, j)
    ensures w.agents[j].pos == Some(Destination(w, id, draw))
  {
    if Moves(w, id) != [] {
      var dest := Destination(w, id, draw);
      var v := MoveTo(w, id, dest);
      var mates := AscendingIds(Occupants(v.cells, dest), |v.agents|);
      assert AgentStep(w, id, draw) == Fights(v, id, mates);
      assert v.agents[j] == w.agents[j];
      assert j in mates;
    }
  }

  /** The agents from id `i` on take their turns, skipping those no longer
      in the schedule. */
  function TickFrom(w: World, draws: seq<nat>, i: nat): (r: World)
    requires Valid(w) && |draws| == |w.agents| && i <= |w.agents|
    ensures Valid(r) && |r.agents| == |w.agents|
    decreases |w.agents| - i
  {
    if i == |w.agents| then w
    else
      var v := if i in w.live then AgentStep(w, i, draws[i]) else w;
      TickFrom(v, draws, i + 1)
  }

  /** The remaining turns of a tick only let the state evolve. */
  lemma {:induction false} TickFromEvolves(w: World, draws: seq<nat>, i: nat)
    requires Valid(w) && |draws| == |w.agents| && i <= |w.agents|
    ensures Evolves(w, TickFrom(w, draws, i))
    decreases |w.agents| - i
  {
    if i < |w.agents| && i in w.live {
      var v := AgentStep(w, i, draws[i]);
      TickFromEvolves(v, draws, i + 1);
      EvolvesTransitive(w, v, TickFrom(v, draws, i + 1));
    } else if i < |w.agents| {
      TickFromEvolves(w, draws, i + 1);
    }
  }

  /** Agent `i`'s turn, then the turns from `i + 1` on. */
  lemma TickFromNext(w: World, draws: seq<nat>, i: nat)
    requires Valid(w) && |draws| == |w.agents| && i < |w.agents|
    ensures TickFrom(w, draws, i) ==
            TickFrom(if i in w.live then AgentStep(w, i, draws[i]) else w, draws, i + 1)
  {
  }

  /** The model's tick; `draws[i]` is agent i's random draw. */
  function Tick(w: World, draws: seq<nat>): (r: World)
    requires Valid(w) && |draws| == |w.agents|
    ensures Valid(r) && Evolves(w, r)
  {
    TickFromEvolves(w, draws, 0);
    TickFrom(w, draws, 0)
  }

  // ---------------------------------------------------------------------
  // Initial population

  /** The random draws for one new agent. */
  datatype Recruit = Recruit(team: Team, strength: int, health: int, x: int, y: int)

  /** The ranges the draws come from: a team of the roster, strength in
      [1, 10], health in [5, 20], a cell of the grid. */
  predicate RecruitOk(width: nat, height: nat, teams: seq<Team>, g: Recruit) {
    g.team in teams && 1 <= g.strength <= 10 && 5 <= g.health <= 20 &&
    InBounds(width, height, Cell(g.x, g.y))
  }

  /** The agent created from draws `g` with id `i`, not yet on the grid. */
  function Recruited(i: nat, g: Recruit, moveDistance: nat): Agent {
    Agent(i, g.team, g.strength, g.health, moveDistance, g.x, g.y, None)
  }

  /** The next agent is created (placing itself on the grid), placed again
      by the model, and added to the schedule. */
  function Enlist(w: World, g: Recruit): (r: World)
    requires Valid(w) && RecruitOk(w.width, w.height, w.teams, g)
    ensures Valid(r)
    ensures r.width == w.width && r.height == w.height && r.teams == w.teams
    ensures r.moveDistance == w.moveDistance && r.live == w.live + {|w.agents|}
    ensures r.agents == w.agents + [Recruited(|w.agents|, g, w.moveDistance).(pos := Some(Cell(g.x, g.y)))]
  {
    var i := |w.agents|;
    var a := Recruited(i, g, w.moveDistance);
    var v := PlaceAgent(w.(agents := w.agents + [a]), i, Start(a));
    var v' := PlaceAgent(v, i, Start(a));
    PlaceAgentTwice(w.(agents := w.agents + [a]), i, Start(a));
    EnlistKeepsValid(w, g);
    v'.(live := v'.live + {i})
  }

  lemma EnlistKeepsValid(w: World, g: Recruit)
    requires Valid(w) && RecruitOk(w.width, w.height, w.teams, g)
    ensures var i := |w.agents|;
            var v := PlaceAgent(w.(agents := w.agents + [Recruited(i, g, w.moveDistance)]), i, Cell(g.x, g.y));
            Valid(v.(live := v.live + {i}))
  {
    var i := |w.agents|;
    var v := PlaceAgent(w.(agents := w.agents + [Recruited(i, g, w.moveDistance)]), i, Cell(g.x, g.y));
    var r := v.(live := v.live + {i});
    forall c ensures Occupants(r.cells, c) == AgentsAt(r.agents, c) {
      if c == Cell(g.x, g.y) {
        assert AgentsAt(r.agents, c) == AgentsAt(w.agents, c) + {i};
      } else {
        assert AgentsAt(r.agents, c) == AgentsAt(w.agents, c);
      }
    }
    forall j | 0 <= j < |r.agents|
      ensures r.agents[j].pos.Some? <==> j in r.live
    {
      if j < i {
        assert r.agents[j] == w.agents[j];
      }
    }
  }

  /** The model as constructed from one Recruit per agent, in id order. */
  function Populate(width: nat, height: nat, teams: seq<Team>, moveDistance: nat,
                    recruits: seq<Recruit>): (r: World)
    requires forall k :: 0 <= k < |recruits| ==> RecruitOk(width, height, teams, recruits[k])
    ensures Valid(r)
    ensures r.width == width && r.height == height && r.teams == teams && r.moveDistance == moveDistance
    decreases |recruits|
  {
    if recruits == [] then World(width, height, teams, moveDistance, [], {}, map[])
    else
      var n := |recruits| - 1;
      Enlist(Populate(width, height, teams, moveDistance, recruits[..n]), recruits[n])
  }

  /** `w` holds one agent per recruit, agent i made from recruit i and
      standing on its start cell, and schedules all of them. */
  ghost predicate Enlisted(w: World, recruits: seq<Recruit>) {
    |w.agents| == |recruits| &&
    (forall i :: i in w.live <==> 0 <= i < |recruits|) &&
    forall i :: 0 <= i < |recruits| ==>
      w.agents[i] == Recruited(i, recruits[i], w.moveDistance).(pos := Some(Cell(recruits[i].x, recruits[i].y)))
  }

  lemma EnlistExtends(w: World, recruits: seq<Recruit>)
    requires Valid(w) && recruits != []
    requires RecruitOk(w.width, w.height, w.teams, recruits[|recruits| - 1])
    requires Enlisted(w, recruits[..|recruits| - 1])
    ensures Enlisted(Enlist(w, recruits[|recruits| - 1]), recruits)
  {
    var n := |recruits| - 1;
    var r := Enlist(w, recruits[n]);
    forall i | 0 <= i < |recruits|
      ensures r.agents[i] == Recruited(i, recruits[i], r.moveDistance).(pos := Some(Cell(recruits[i].x, recruits[i].y)))
    {
      if i < n {
        assert recruits[..n][i] == recruits[i];
      }
    }
  }

  /** The constructed model holds one agent per recruit, agent i made from
      recruit i and standing on its start cell, and schedules all of them. */
  lemma {:induction false} PopulateAgents(width: nat, height: nat, teams: seq<Team>,
                                          moveDistance: nat, recruits: seq<Recruit>)
    requires forall k :: 0 <= k < |recruits| ==> RecruitOk(width, height, teams, recruits[k])
    ensures Enlisted(Populate(width, height, teams, moveDistance, recruits), recruits)
    decreases |recruits|
  {
    if recruits != [] {
      var n := |recruits| - 1;
      PopulateAgents(width, height, teams, moveDistance, recruits[..n]);
      EnlistExtends(Populate(width, height, teams, moveDistance, recruits[..n]), recruits);
    }
  }

  /** The model with one more recruit is the model enlisting it. */
  lemma PopulateNext(width: nat, height: nat, teams: seq<Team>, moveDistance: nat,
                     recruits: seq<Recruit>, i: nat)
    requires i < |recruits|
    requires forall k :: 0 <= k < |recruits| ==> RecruitOk(width, height, teams, recruits[k])
    ensures Populate(width, height, teams, moveDistance, recruits[..i + 1]) ==
            Enlist(Populate(width, height, teams, moveDistance, recruits[..i]), recruits[i])
  {
    assert recruits[..i + 1][..i] == recruits[..i];
  }
}
