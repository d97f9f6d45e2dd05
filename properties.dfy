/** Properties of the battle that span several rules or several ticks: what
    a removal means for later states, how the number of teams evolves, what
    the snapshots report, how a mover's grid position and its reported
    (x, y) drift apart, and the degenerate one-cell field. */
module Properties {
  import opened Grid
  import opened Battle
  import opened Queries

  lemma EvolvesReflexive(w: World)
    ensures Evolves(w, w)
  {
  }

  /** Once out of the schedule, an agent stays out, stays off the grid and is
      never reported again. */
  lemma NoResurrection(w: World, v: World, i: nat)
    requires Valid(w) && Valid(v) && Evolves(w, v)
    requires i < |w.agents| && i !in w.live
    ensures i !in v.live && v.agents[i].pos == None && i !in LiveIds(v)
  {
  }

  /** Teams only die out: the number of teams alive never grows. */
  lemma CountTeamsNeverGrows(w: World, v: World)
    requires Valid(w) && Valid(v) && Evolves(w, v)
    ensures CountTeams(v) <= CountTeams(w)
  {
    forall t | t in LiveTeams(v) ensures t in LiveTeams(w) {
      var i :| i in v.live && v.agents[i].team == t;
      assert Persists(w.agents[i], v.agents[i]);
    }
    SubsetCard(LiveTeams(v), LiveTeams(w));
  }

  /** Along a recorded run every later state is an evolution of every
      earlier one. */
  lemma {:induction false} RecordedEvolves(states: seq<World>, draws: seq<seq<nat>>,
                                           snapshots: seq<seq<(int, int, Team)>>, j: nat, k: nat)
    requires Recorded(states, draws, snapshots) && j <= k < |states|
    ensures Evolves(states[j], states[k])
    decreases k - j
  {
    if j == k {
      EvolvesReflexive(states[j]);
    } else {
      RecordedEvolves(states, draws, snapshots, j, k - 1);
      RecordedTick(states, draws, snapshots, k - 1);
      EvolvesTransitive(states[j], states[k - 1], states[k]);
    }
  }

  /** One recorded tick is an evolution. */
  lemma RecordedTick(states: seq<World>, draws: seq<seq<nat>>,
                     snapshots: seq<seq<(int, int, Team)>>, t: nat)
    requires Recorded(states, draws, snapshots) && t < |snapshots|
    ensures Valid(states[t + 1]) && Evolves(states[t], states[t + 1])
    ensures snapshots[t] == Positions(states[t + 1])
  {
    assert TickRecorded(states, draws, snapshots, t);
  }

  /** Along a recorded run, an agent removed by some tick is absent from every
      later state and every later snapshot's list of ids, and the number of
      teams alive never grows. */
  lemma RunIsMonotone(states: seq<World>, draws: seq<seq<nat>>,
                      snapshots: seq<seq<(int, int, Team)>>, j: nat, k: nat)
    requires Recorded(states, draws, snapshots) && j <= k < |states|
    ensures |states[k].agents| == |states[j].agents|
    ensures CountTeams(states[k]) <= CountTeams(states[j])
    ensures forall i :: 0 <= i < |states[j].agents| && i !in states[j].live ==>
              i !in states[k].live && states[k].agents[i].pos == None && i !in LiveIds(states[k])
  {
    RecordedEvolves(states, draws, snapshots, j, k);
    CountTeamsNeverGrows(states[j], states[k]);
    forall i | 0 <= i < |states[j].agents| && i !in states[j].live
      ensures i !in states[k].live && states[k].agents[i].pos == None && i !in LiveIds(states[k])
    {
      NoResurrection(states[j], states[k], i);
    }
  }

  /** `p` is the team and starting cell of a live agent, as drawn for its
      recruit. */
  ghost predicate RecruitReport(recruits: seq<Recruit>, w: World, p: (int, int, Team)) {
    exists i :: 0 <= i < |recruits| && i in w.live && p == (recruits[i].x, recruits[i].y, recruits[i].team)
  }

  /** Every report of a state reached from the initial population is some
      live agent's team and starting cell, as drawn for its recruit: (x, y)
      is never updated after a move. `w0` is any state holding the recruits'
      agents, such as the one the constructor builds (PopulateAgents). */
  lemma ReportsAreStartCells(recruits: seq<Recruit>, w0: World, w: World)
    requires Enlisted(w0, recruits)
    requires Valid(w) && Evolves(w0, w)
    ensures forall p :: p in Positions(w) ==> RecruitReport(recruits, w, p)
  {
    PositionsReportLive(w);
    forall p | p in Positions(w) ensures RecruitReport(recruits, w, p) {
      var k :| 0 <= k < |Positions(w)| && Positions(w)[k] == p;
      var i :| i in w.live && p == Report(w.agents[i]);
      assert i < |recruits|;
      assert Persists(w0.agents[i], w.agents[i]);
      assert w0.agents[i] == Recruited(i, recruits[i], w0.moveDistance).(pos := Some(Cell(recruits[i].x, recruits[i].y)));
    }
  }

  /** Every snapshot of a run that starts from the recruits' agents (as
      RunSimulation's does) lists starting cells of live agents, as drawn for
      their recruits. */
  lemma SnapshotsReportStartCells(recruits: seq<Recruit>, states: seq<World>,
                                  draws: seq<seq<nat>>, snapshots: seq<seq<(int, int, Team)>>, t: nat)
    requires Recorded(states, draws, snapshots) && Enlisted(states[0], recruits)
    requires t < |snapshots|
    ensures forall p :: p in snapshots[t] ==> RecruitReport(recruits, states[t + 1], p)
  {
    RecordedEvolves(states, draws, snapshots, 0, t + 1);
    RecordedTick(states, draws, snapshots, t);
    ReportsAreStartCells(recruits, states[0], states[t + 1]);
  }

  /** A mover that survives its turn stands on a candidate cell other than
      its starting cell, while what get_agents_positions reports for it is
      still that starting cell. */
  lemma MoverLeavesReportedCell(w: World, id: nat, draw: nat)
    requires Valid(w) && id in w.live
    ensures var r := AgentStep(w, id, draw);
            id in r.live && Moves(w, id) != [] ==>
              r.agents[id].pos.Some? && r.agents[id].pos.value in Moves(w, id) &&
              r.agents[id].pos.value != Start(w.agents[id]) &&
              Report(r.agents[id]) == Report(w.agents[id])
  {
    var r := AgentStep(w, id, draw);
    assert Persists(w.agents[id], r.agents[id]);
  }

  /** Once the mover loses a fight, the cellmates after that rival are left
      as they were and the mover is out of the schedule. */
  lemma LossEndsFights(w: World, me: nat, mates: seq<nat>)
    requires Valid(w) && me < |w.agents|
    requires forall k :: 0 <= k < |mates| ==> mates[k] < |w.agents|
    requires mates != [] && Duel(w, me, mates[0]).1
    ensures var r := Fights(w, me, mates);
            me !in r.live &&
            forall j :: j in mates[1..] && j != mates[0] && j != me ==> r.agents[j] == w.agents[j]
  {
    var r := Fights(w, me, mates);
    assert r == Duel(w, me, mates[0]).0;
  }

  /** On a 1 x 1 torus no agent has anywhere to move, so a turn changes
      nothing. */
  lemma SingleCellTurnStandsStill(w: World, id: nat, draw: nat)
    requires Valid(w) && w.width == 1 && w.height == 1 && id in w.live
    ensures AgentStep(w, id, draw) == w
  {
    assert Start(w.agents[id]) == Cell(0, 0);
    SingleCellHasNoNeighbors(w.agents[id].moveDistance);
  }

  /** On a 1 x 1 torus a tick changes nothing. */
  lemma {:induction false} SingleCellTickStandsStill(w: World, draws: seq<nat>, i: nat)
    requires Valid(w) && w.width == 1 && w.height == 1
    requires |draws| == |w.agents| && i <= |w.agents|
    ensures TickFrom(w, draws, i) == w
    decreases |w.agents| - i
  {
    if i < |w.agents| {
      TickFromNext(w, draws, i);
      if i in w.live {
        SingleCellTurnStandsStill(w, i, draws[i]);
      }
      SingleCellTickStandsStill(w, draws, i + 1);
    }
  }

  // ---------------------------------------------------------------------
  // A single team

  /** Meeting only team-mates (or oneself) changes nothing. */
  lemma {:induction false} FightsWithoutRivals(w: World, me: nat, mates: seq<nat>)
    requires Valid(w) && me < |w.agents|
    requires forall k :: 0 <= k < |mates| ==> mates[k] < |w.agents| && !Rivals(w, me, mates[k])
    ensures Fights(w, me, mates) == w
    decreases |mates|
  {
    if mates != [] {
      FightsWithoutRivals(w, me, mates[1..]);
    }
  }

  /** Every live agent is on team `t`. */
  ghost predicate AllOnTeam(w: World, t: Team)
    requires Valid(w)
  {
    forall i :: i in w.live ==> w.agents[i].team == t
  }

  /** With only team `t` left, an agent's turn is movement only: the state
      is the one the move alone gives, or unchanged when there is no
      candidate. */
  lemma OneTeamTurnOnlyMoves(w: World, id: nat, draw: nat, t: Team)
    requires Valid(w) && id in w.live && AllOnTeam(w, t)
    ensures AgentStep(w, id, draw) ==
            if Moves(w, id) == [] then w else MoveTo(w, id, Destination(w, id, draw))
  {
    if Moves(w, id) != [] {
      var dest := Destination(w, id, draw);
      var v := MoveTo(w, id, dest);
      var mates := AscendingIds(Occupants(v.cells, dest), |v.agents|);
      AllOnTeamStays(w, v, t);
      CellmatesAreTeamMates(v, id, dest, t, mates);
      FightsWithoutRivals(v, id, mates);
      assert AgentStep(w, id, draw) == Fights(v, id, mates);
    }
  }

  /** `v` differs from `w` at most in where agents stand on the grid: the
      same schedule, and every agent's record is the same but for `pos`. */
  ghost predicate MovementOnly(w: World, v: World) {
    |v.agents| == |w.agents| && v.live == w.live &&
    forall j :: 0 <= j < |w.agents| ==> v.agents[j] == w.agents[j].(pos := v.agents[j].pos)
  }

  /** One single-team turn, in MovementOnly terms; the one team stays. */
  lemma OneTeamTurnMovementOnly(w: World, id: nat, draw: nat, t: Team)
    requires Valid(w) && id in w.live && AllOnTeam(w, t)
    ensures MovementOnly(w, AgentStep(w, id, draw)) && AllOnTeam(AgentStep(w, id, draw), t)
  {
    OneTeamTurnOnlyMoves(w, id, draw, t);
    AllOnTeamStays(w, AgentStep(w, id, draw), t);
  }

  lemma MovementOnlyTransitive(u: World, v: World, w: World)
    requires MovementOnly(u, v) && MovementOnly(v, w)
    ensures MovementOnly(u, w)
  {
    forall j | 0 <= j < |u.agents| ensures w.agents[j] == u.agents[j].(pos := w.agents[j].pos) {
      assert v.agents[j] == u.agents[j].(pos := v.agents[j].pos);
    }
  }

  /** With only team `t` left, everyone on a cell is a team-mate of `id`. */
  lemma CellmatesAreTeamMates(v: World, id: nat, dest: Cell, t: Team, mates: seq<nat>)
    requires Valid(v) && id in v.live && AllOnTeam(v, t)
    requires mates == AscendingIds(Occupants(v.cells, dest), |v.agents|)
    ensures forall k :: 0 <= k < |mates| ==> mates[k] < |v.agents| && !Rivals(v, id, mates[k])
  {
    forall k | 0 <= k < |mates| ensures !Rivals(v, id, mates[k]) {
      assert mates[k] in AgentsAt(v.agents, dest);
    }
  }

  /** The agents left after any evolution are still all on team `t`. */
  lemma AllOnTeamStays(w: World, v: World, t: Team)
    requires Valid(w) && Valid(v) && Evolves(w, v) && AllOnTeam(w, t)
    ensures AllOnTeam(v, t)
  {
    forall i | i in v.live ensures v.agents[i].team == t {
      assert Persists(w.agents[i], v.agents[i]);
    }
  }

  /** With only team `t` left, the rest of a tick is movement only: nobody
      is removed and no strength changes. */
  lemma {:induction false} OneTeamTurnsOnlyMove(w: World, draws: seq<nat>, i: nat, t: Team)
    requires Valid(w) && |draws| == |w.agents| && i <= |w.agents| && AllOnTeam(w, t)
    ensures MovementOnly(w, TickFrom(w, draws, i))
    decreases |w.agents| - i
  {
    if i < |w.agents| {
      TickFromNext(w, draws, i);
      if i in w.live {
        var v := AgentStep(w, i, draws[i]);
        OneTeamTurnMovementOnly(w, i, draws[i], t);
        OneTeamTurnsOnlyMove(v, draws, i + 1, t);
        MovementOnlyTransitive(w, v, TickFrom(v, draws, i + 1));
      } else {
        OneTeamTurnsOnlyMove(w, draws, i + 1, t);
      }
    } else {
      assert MovementOnly(w, w);
    }
  }

  /** Once at most one team is left, a tick is movement only: nobody is
      removed and no strength changes. */
  lemma OneTeamTickOnlyMoves(w: World, draws: seq<nat>)
    requires Valid(w) && |draws| == |w.agents| && CountTeams(w) <= 1
    ensures MovementOnly(w, Tick(w, draws))
  {
    var t := if w.live == {} then [] else var i :| i in w.live; w.agents[i].team;
    OneTeamTurnsOnlyMove(w, draws, 0, t);
  }

  // ---------------------------------------------------------------------
  // A lone rival on the destination

  /** A mover whose destination holds one rival `o` and nobody else, and
      whose strength beats `o`'s health, removes `o` and gains one point. */
  lemma LoneRivalFalls(w: World, id: nat, draw: nat, o: nat)
    requires Valid(w) && id in w.live && Moves(w, id) != [] && o < |w.agents|
    requires Occupants(w.cells, Destination(w, id, draw)) - {id} == {o}
    requires Rivals(w, id, o) && w.agents[id].strength > w.agents[o].health
    ensures var r := AgentStep(w, id, draw);
            r.live == w.live - {o} && r.agents[o].pos == None &&
            r.agents[id] == w.agents[id].(strength := w.agents[id].strength + 1,
                                          pos := Some(Destination(w, id, draw)))
  {
    var dest := Destination(w, id, draw);
    var v := MoveTo(w, id, dest);
    var mates := AscendingIds(Occupants(v.cells, dest), |v.agents|);
    OnDestinationAfterMove(w, id, dest);
    assert Occupants(v.cells, dest) == {id, o};
    if id < o {
      AscendingPair(Occupants(v.cells, dest), |v.agents|, id, o);
    } else {
      AscendingPair(Occupants(v.cells, dest), |v.agents|, o, id);
    }
    assert w.agents[o].pos == Some(dest) by {
      assert o in AgentsAt(w.agents, dest);
    }
    LoneFight(v, id, o, mates);
    var r := Fights(v, id, mates);
    assert AgentStep(w, id, draw) == r;
    assert v.agents[id] == w.agents[id].(pos := Some(dest));
  }

  /** After the move, the destination holds the mover and whoever was there. */
  lemma OnDestinationAfterMove(w: World, id: nat, dest: Cell)
    requires Valid(w) && id in w.live && InBounds(w.width, w.height, dest)
    ensures Occupants(MoveTo(w, id, dest).cells, dest) == (Occupants(w.cells, dest) - {id}) + {id}
  {
    var v := MoveTo(w, id, dest);
    assert AgentsAt(v.agents, dest) == (AgentsAt(w.agents, dest) - {id}) + {id};
  }

  /** The two members of `{a, b}`, with `a < b`, listed in ascending order. */
  lemma AscendingPair(s: set<nat>, n: nat, a: nat, b: nat)
    requires s == {a, b} && a < b < n
    ensures AscendingIds(s, n) == [a, b]
  {
    var r := AscendingIds(s, n);
    AscendingCard(r, s);
    assert |s| == 2;
    assert r[0] in s && r[1] in s;
  }

  /** The fights over the mover and one rival `o`, in either order. */
  lemma LoneFight(v: World, id: nat, o: nat, mates: seq<nat>)
    requires Valid(v) && id < |v.agents| && o < |v.agents| && v.agents[o].pos.Some?
    requires mates == [id, o] || mates == [o, id]
    requires Rivals(v, id, o) && v.agents[id].strength > v.agents[o].health
    ensures var r := Fights(v, id, mates);
            r.live == v.live - {o} && r.agents[o].pos == None &&
            r.agents[id] == v.agents[id].(strength := v.agents[id].strength + 1)
  {
    var r := Duel(v, id, o).0;
    assert Duel(v, id, id) == (v, false);
    assert Duel(r, id, id) == (r, false);
    if mates == [id, o] {
      assert mates[1..] == [o] && [o][1..] == [];
      assert Fights(v, id, [o]) == r;
    } else {
      assert mates[1..] == [id] && [id][1..] == [];
      assert Fights(r, id, [id]) == r;
    }
  }
}
