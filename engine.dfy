/** The model object as the host drives it: a BattleModel whose fields (the
    agents, the schedule, the grid's occupancy index) are updated in place by
    its methods, and the run loop that steps it and records snapshots. Each
    method is proved to leave the object in the state the matching function
    of the Battle module computes. */
module Engine {
  import opened Grid
  import opened Battle
  import opened Queries

  class BattleModel {
    const numAgents: nat
    const width: nat
    const height: nat
    const teams: seq<Team>
    const moveDistance: nat
    /** Agent records, indexed by id. */
    var agents: seq<Agent>
    /** The schedule: ids of the agents still taking turns. */
    var live: set<nat>
    /** The grid's occupancy index. */
    var cells: Occupancy

    /** The object's fields as a World value. */
    function State(): World
      reads this
    {
      World(width, height, teams, moveDistance, agents, live, cells)
    }

    ghost predicate Valid()
      reads this
    {
      Battle.Valid(State())
    }

    /** BattleModel.__init__: an empty torus grid and schedule, then one agent
        per recruit, ids 0 .. numAgents - 1 in order. */
    constructor (numAgents: nat, width: nat, height: nat, teams: seq<Team>,
                 moveDistance: nat, recruits: seq<Recruit>)
      requires |recruits| == numAgents
      requires forall k :: 0 <= k < |recruits| ==> RecruitOk(width, height, teams, recruits[k])
      ensures Valid()
      ensures State() == Populate(width, height, teams, moveDistance, recruits)
      ensures this.numAgents == numAgents
    {
      this.numAgents := numAgents;
      this.width := width;
      this.height := height;
      this.teams := teams;
      this.moveDistance := moveDistance;
      agents := [];
      live := {};
      cells := map[];
      new;
      for i := 0 to numAgents
        invariant State() == Populate(width, height, teams, moveDistance, recruits[..i])
      {
        PopulateNext(width, height, teams, moveDistance, recruits, i);
        AddAgent(recruits[i]);
      }
      assert recruits[..numAgents] == recruits;
    }

    /** The grid's place_agent: register `id` at `c` and record `c` as its
        position. */
    method PlaceAgent(id: nat, c: Cell)
      requires id < |agents|
      modifies this
      ensures State() == Battle.PlaceAgent(old(State()), id, c)
    {
      cells := Place(cells, id, c);
      agents := agents[id := agents[id].(pos := Some(c))];
    }

    /** The grid's remove_agent: deregister `id` from its cell and clear its
        position. */
    method RemoveAgent(id: nat)
      requires id < |agents| && agents[id].pos.Some?
      modifies this
      ensures State() == Unplace(old(State()), id)
    {
      cells := Remove(cells, id, agents[id].pos.value);
      agents := agents[id := agents[id].(pos := None)];
    }

    /** The grid's move_agent. */
    method MoveAgent(id: nat, c: Cell)
      requires id < |agents| && agents[id].pos.Some?
      modifies this
      ensures State() == Battle.PlaceAgent(Unplace(old(State()), id), id, c)
    {
      RemoveAgent(id);
      PlaceAgent(id, c);
    }

    /** One loop iteration of __init__: BattleAgent.__init__ creates the
        agent with the drawn team, strength, health and start cell and places
        it; the model places it again and adds it to the schedule. */
    method AddAgent(g: Recruit)
      requires Valid() && RecruitOk(width, height, teams, g)
      modifies this
      ensures State() == Enlist(old(State()), g)
    {
      var id := |agents|;
      agents := agents + [Recruited(id, g, moveDistance)];
      PlaceAgent(id, Cell(g.x, g.y));
      PlaceAgent(id, Cell(g.x, g.y));
      live := live + {id};
    }

    /** BattleAgent.step for agent `id`, with `draw` standing for the random
        choice among the movement candidates. */
    method AgentStep(id: nat, draw: nat)
      requires Valid() && id in live
      modifies this
      ensures Valid()
      ensures State() == Battle.AgentStep(old(State()), id, draw)
    {
      ghost var w := State();
      var moves := Neighborhood(width, height, Cell(agents[id].x, agents[id].y), agents[id].moveDistance);
      assert moves == Moves(w, id);
      if moves != [] {
        var dest := moves[draw % |moves|];
        assert dest == Destination(w, id, draw);
        MoveAgent(id, dest);
        assert State() == MoveTo(w, id, dest);
        var cellmates := AscendingIds(Occupants(cells, dest), |agents|);
        MeetAll(id, cellmates);
      }
    }

    /** The cellmate loop of BattleAgent.step: the mover `id` meets each of
        `cellmates` in turn, until it loses a fight. */
    method MeetAll(id: nat, cellmates: seq<nat>)
      requires Valid() && id < |agents|
      requires forall k :: 0 <= k < |cellmates| ==> cellmates[k] < |agents|
      modifies this
      ensures State() == Fights(old(State()), id, cellmates)
    {
      ghost var start := State();
      assert cellmates[0..] == cellmates;
      for k := 0 to |cellmates|
        invariant Battle.Valid(State()) && |agents| == |start.agents|
        invariant Fights(State(), id, cellmates[k..]) == Fights(start, id, cellmates)
      {
        assert cellmates[k..][0] == cellmates[k] && cellmates[k..][1..] == cellmates[k + 1..];
        var stop := Meet(id, cellmates[k]);
        if stop {
          break;
        }
      }
    }

    /** One pass of the cellmate loop in BattleAgent.step: the mover `id`
        meets `other`. Returns whether the loop breaks. */
    method Meet(id: nat, other: nat) returns (stop: bool)
      requires Valid() && id < |agents| && other < |agents|
      modifies this
      ensures (State(), stop) == Duel(old(State()), id, other)
    {
      stop := false;
      if other != id && agents[other].team != agents[id].team {
        if agents[id].strength > agents[other].health {
          if agents[other].pos.Some? {
            RemoveAgent(other);
            live := live - {other};
          }
          agents := agents[id := agents[id].(strength := agents[id].strength + 1)];
        } else if agents[other].strength > agents[id].health {
          if agents[id].pos.Some? {
            RemoveAgent(id);
            live := live - {id};
          }
          agents := agents[other := agents[other].(strength := agents[other].strength + 1)];
          stop := true;
        }
      }
    }

    /** BattleModel.step: the schedule activates its agents in id order,
        skipping those removed earlier in the same tick; `draws[i]` is agent
        i's draw. */
    method Step(draws: seq<nat>)
      requires Valid() && |draws| == |agents|
      modifies this
      ensures Valid()
      ensures State() == Tick(old(State()), draws)
    {
      ghost var start := State();
      for i := 0 to |draws|
        invariant Valid() && |agents| == |draws|
        invariant TickFrom(State(), draws, i) == Tick(start, draws)
      {
        TickFromNext(State(), draws, i);
        if i in live {
          AgentStep(i, draws[i]);
        }
      }
    }

    /** get_agents_positions: (x, y, team) of every scheduled agent, in
        schedule order. */
    method GetAgentsPositions() returns (positions: seq<(int, int, Team)>)
      requires Valid()
      ensures positions == Positions(State())
    {
      positions := CollectReports();
    }

    /** The loop of get_agents_positions: walk the agents in id order and
        report those in the schedule. */
    method CollectReports() returns (positions: seq<(int, int, Team)>)
      ensures positions == ReportsOf(agents, AscendingIds(live, |agents|))
    {
      positions := [];
      ghost var ids: seq<nat> := [];
      for i := 0 to |agents|
        invariant ids == AscendingIds(live, i)
        invariant positions == ReportsOf(agents, ids)
      {
        if i in live {
          positions := positions + [Report(agents[i])];
          ids := ids + [i];
        }
      }
    }
  }

  /** The run loop: build the model, then for up to `steps` ticks stop as
      soon as at most one team is left, otherwise tick and record the
      positions. `draws[t]` holds tick t's draws, one per agent. `states`
      lists the model's successive states, starting from the initial
      population; the loop ends early only when at most one team is left. */
  method RunSimulation(numAgents: nat, width: nat, height: nat, teams: seq<Team>,
                       moveDistance: nat, recruits: seq<Recruit>,
                       steps: nat, draws: seq<seq<nat>>)
    returns (allPositions: seq<seq<(int, int, Team)>>, ghost states: seq<World>)
    requires |recruits| == numAgents
    requires forall k :: 0 <= k < |recruits| ==> RecruitOk(width, height, teams, recruits[k])
    requires |draws| == steps && forall t :: 0 <= t < steps ==> |draws[t]| == numAgents
    ensures Recorded(states, draws, allPositions)
    ensures states[0] == Populate(width, height, teams, moveDistance, recruits)
    ensures Enlisted(states[0], recruits)
    ensures |allPositions| < steps ==> CountTeams(states[|allPositions|]) <= 1
  {
    var model := new BattleModel(numAgents, width, height, teams, moveDistance, recruits);
    PopulateAgents(width, height, teams, moveDistance, recruits);
    states := [model.State()];
    allPositions := [];
    for i := 0 to steps
      invariant |allPositions| == i && Recorded(states, draws, allPositions)
      invariant states[0] == Populate(width, height, teams, moveDistance, recruits)
      invariant Enlisted(states[0], recruits)
      invariant model.Valid() && model.State() == states[i] && |model.agents| == numAgents
    {
      if CountTeams(model.State()) <= 1 {
        break;
      }
      RecordedNext(states, draws, allPositions);
      model.Step(draws[i]);
      var positions := model.GetAgentsPositions();
      allPositions := allPositions + [positions];
      states := states + [model.State()];
    }
  }
}
