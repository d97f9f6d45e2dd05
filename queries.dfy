/** What the host reads from the model (the number of teams still alive and
    one (x, y, team) report per live agent), and the states the run loop
    passes through tick by tick. */
module Queries {
  import opened Grid
  import opened Battle

  /** The labels carried by live agents. */
  function LiveTeams(w: World): set<Team>
    requires Valid(w)
  {
    set i | i in w.live :: w.agents[i].team
  }

  lemma {:induction false} SeqToSetCard<T>(s: seq<T>)
    ensures |set x | x in s| <= |s|
  {
    if s != [] {
      SeqToSetCard(s[1..]);
      assert (set x | x in s) == (set x | x in s[1..]) + {s[0]};
    }
  }

  lemma {:induction false} SubsetCard<T>(a: set<T>, b: set<T>)
    requires a <= b
    ensures |a| <= |b|
    decreases |b|
  {
    if a != {} {
      var x :| x in a;
      SubsetCard(a - {x}, b - {x});
    }
  }

  /** All live agents are on one team (or none is left). */
  ghost predicate OneTeamLeft(w: World)
    requires Valid(w)
  {
    forall i, j :: i in w.live && j in w.live ==> w.agents[i].team == w.agents[j].team
  }

  /** count_teams: the number of distinct teams among live agents. */
  function CountTeams(w: World): (r: nat)
    requires Valid(w)
    ensures r <= |w.teams|
    ensures r == 0 <==> w.live == {}
    ensures r <= 1 <==> OneTeamLeft(w)
  {
    LiveTeamsCard(w);
    |LiveTeams(w)|
  }

  lemma LiveTeamsCard(w: World)
    requires Valid(w)
    ensures |LiveTeams(w)| <= |w.teams|
    ensures |LiveTeams(w)| == 0 <==> w.live == {}
    ensures |LiveTeams(w)| <= 1 <==> OneTeamLeft(w)
  {
    var s := LiveTeams(w);
    SeqToSetCard(w.teams);
    SubsetCard(s, set t | t in w.teams);
    if w.live != {} {
      var i :| i in w.live;
      assert w.agents[i].team in s;
    }
    if |s| <= 1 {
      forall i, j | i in w.live && j in w.live
        ensures w.agents[i].team == w.agents[j].team
      {
        var ti, tj := w.agents[i].team, w.agents[j].team;
        if ti != tj {
          assert ti in s && tj in s;
          SubsetCard({ti, tj}, s);
        }
      }
    } else {
      var t :| t in s;
      assert |s - {t}| == |s| - 1;
      var u :| u in s - {t};
      var i :| i in w.live && w.agents[i].team == t;
      var j :| j in w.live && w.agents[j].team == u;
    }
  }

  /** What get_agents_positions reports for an agent: its (x, y), which is
      its starting cell, and its team. */
  function Report(a: Agent): (int, int, Team) {
    (a.x, a.y, a.team)
  }

  /** The schedule's agents in the order it keeps them, ascending id. */
  function LiveIds(w: World): (ids: seq<nat>)
    requires Valid(w)
    ensures |ids| == |w.live|
    ensures forall i :: i in ids <==> i in w.live
  {
    var ids := AscendingIds(w.live, |w.agents|);
    AscendingCard(ids, w.live);
    ids
  }

  lemma {:induction false} AscendingCard(ids: seq<nat>, s: set<nat>)
    requires forall j, k :: 0 <= j < k < |ids| ==> ids[j] < ids[k]
    requires forall i :: i in ids <==> i in s
    ensures |ids| == |s|
  {
    if ids != [] {
      var n := |ids| - 1;
      assert ids[n] !in ids[..n];
      AscendingCard(ids[..n], s - {ids[n]});
    }
  }

  /** The reports of the agents `ids`, in that order. */
  function ReportsOf(agents: seq<Agent>, ids: seq<nat>): (r: seq<(int, int, Team)>)
    requires forall k :: 0 <= k < |ids| ==> ids[k] < |agents|
    ensures |r| == |ids|
  {
    seq(|ids|, k requires 0 <= k < |ids| => Report(agents[ids[k]]))
  }

  /** get_agents_positions: one report per live agent, in schedule order. */
  function Positions(w: World): (r: seq<(int, int, Team)>)
    requires Valid(w)
    ensures |r| == |w.live|
  {
    ReportsOf(w.agents, LiveIds(w))
  }

  /** Every report belongs to a live agent, and every live agent is
      reported. */
  lemma PositionsReportLive(w: World)
    requires Valid(w)
    ensures forall k :: 0 <= k < |Positions(w)| ==>
              exists i :: i in w.live && Positions(w)[k] == Report(w.agents[i])
    ensures forall i :: i in w.live ==> Report(w.agents[i]) in Positions(w)
  {
    var ids, r := LiveIds(w), Positions(w);
    assert r == ReportsOf(w.agents, ids);
    forall k | 0 <= k < |r|
      ensures exists i :: i in w.live && r[k] == Report(w.agents[i])
    {
      assert ids[k] in ids;
    }
    forall i | i in w.live ensures Report(w.agents[i]) in r {
      var k :| 0 <= k < |ids| && ids[k] == i;
      assert r[k] == Report(w.agents[i]);
    }
  }

  /** Tick `k` of a recorded run: it started with at least two teams alive
      and one draw per agent, states[k + 1] is states[k] after the tick, and
      snapshot k reports states[k + 1]. */
  ghost predicate TickRecorded(states: seq<World>, draws: seq<seq<nat>>,
                               snapshots: seq<seq<(int, int, Team)>>, k: nat)
  {
    k < |snapshots| && k < |draws| && k + 1 < |states| && Valid(states[k]) &&
    CountTeams(states[k]) > 1 && |draws[k]| == |states[k].agents| &&
    states[k + 1] == Tick(states[k], draws[k]) &&
    snapshots[k] == Positions(states[k + 1])
  }

  /** `states` and `snapshots` record a run from states[0] that took
      |snapshots| ticks, each drawn from `draws`. */
  ghost predicate Recorded(states: seq<World>, draws: seq<seq<nat>>,
                           snapshots: seq<seq<(int, int, Team)>>)
  {
    |states| == |snapshots| + 1 && |snapshots| <= |draws| &&
    (forall k :: 0 <= k < |states| ==> Valid(states[k])) &&
    forall k: nat :: k < |snapshots| ==> TickRecorded(states, draws, snapshots, k)
  }

  /** A recorded run extended by one more tick and its snapshot. */
  lemma {:induction false} RecordedNext(states: seq<World>, draws: seq<seq<nat>>,
                                        snapshots: seq<seq<(int, int, Team)>>)
    requires Recorded(states, draws, snapshots) && |snapshots| < |draws|
    requires var w := states[|snapshots|];
             CountTeams(w) > 1 && |draws[|snapshots|]| == |w.agents|
    ensures var w := states[|snapshots|];
            var v := Tick(w, draws[|snapshots|]);
            Recorded(states + [v], draws, snapshots + [Positions(v)])
  {
    var n := |snapshots|;
    var v := Tick(states[n], draws[n]);
    var states', snapshots' := states + [v], snapshots + [Positions(v)];
    forall k | 0 <= k < |states'| ensures Valid(states'[k]) {
      if k < n + 1 {
        assert states'[k] == states[k];
      }
    }
    forall k: nat | k < |snapshots'| ensures TickRecorded(states', draws, snapshots', k) {
      if k < n {
        TickRecordedExtend(states, draws, snapshots, v, Positions(v), k);
      } else {
        assert states'[k] == states[n] && states'[k + 1] == v;
      }
    }
  }

  /** Appending a state and a snapshot keeps the ticks recorded so far. */
  lemma TickRecordedExtend(states: seq<World>, draws: seq<seq<nat>>,
                           snapshots: seq<seq<(int, int, Team)>>,
                           v: World, p: seq<(int, int, Team)>, k: nat)
    requires |states| == |snapshots| + 1 && TickRecorded(states, draws, snapshots, k)
    ensures TickRecorded(states + [v], draws, snapshots + [p], k)
  {
    assert (states + [v])[k] == states[k] && (states + [v])[k + 1] == states[k + 1];
    assert (snapshots + [p])[k] == snapshots[k];
  }
}
