/**
 * Applying the selected injury designations, one after another in selection
 * order: an Out player loses all usage, a Limited player a percentage of it,
 * and what is lost is spread over the player's teammates.
 */
module Injuries {
  import opened Usage

  type Team = string

  datatype Status = Out | Limited(pct: int)

  datatype Injury = Injury(player: Player, status: Status)

  /** Every listed player has a team. */
  predicate TeamsKnown(players: seq<Player>, teamOf: map<Player, Team>)
  {
    forall p :: p in players ==> p in teamOf
  }

  /** Every key of the usage map is a listed player. */
  predicate KeysWithin(m: UsageMap, players: seq<Player>)
  {
    forall p :: p in m ==> p in players
  }

  /** A usage reduction the designation controls can produce: 0 to 100 percent. */
  predicate SensibleStatus(s: Status)
  {
    s.Limited? ==> 0 <= s.pct <= 100
  }

  /** Starting usage: one entry per listed player, a missing declared usage read as 0.0. */
  function StartingUsage(players: seq<Player>, declared: UsageMap): (m: UsageMap)
    ensures forall p :: p in m <==> p in players
    ensures forall p :: p in m ==> m[p] == UsageOf(declared, p)
    ensures KeysWithin(m, players)
  {
    map p | p in players :: UsageOf(declared, p)
  }

  /** The listed players of `team`, in list order; a player without a team is on no roster. */
  function TeamRoster(players: seq<Player>, teamOf: map<Player, Team>, team: Team): seq<Player>
    decreases |players|
  {
    if players == [] then []
    else
      var init, last := players[..|players| - 1], players[|players| - 1];
      TeamRoster(init, teamOf, team) + (if last in teamOf && teamOf[last] == team then [last] else [])
  }

  /** A roster holds exactly the listed players of its team, each once if the list has no repeats. */
  lemma {:induction false} RosterMembers(players: seq<Player>, teamOf: map<Player, Team>, team: Team)
    ensures forall p :: p in TeamRoster(players, teamOf, team) <==> p in players && p in teamOf && teamOf[p] == team
    ensures Distinct(players) ==> Distinct(TeamRoster(players, teamOf, team))
    decreases |players|
  {
    if players != [] {
      var init, last := players[..|players| - 1], players[|players| - 1];
      assert forall p :: p in players ==> p in init || p == last;
      RosterMembers(init, teamOf, team);
      assert Distinct(players) ==> Distinct(init) && last !in init;
    }
  }

  /** `s` with every occurrence of `x` removed, order kept. */
  function Without(s: seq<Player>, x: Player): (r: seq<Player>)
    ensures forall p :: p in r <==> p in s && p != x
    ensures Distinct(s) ==> Distinct(r)
    decreases |s|
  {
    if s == [] then []
    else
      var init, last := s[..|s| - 1], s[|s| - 1];
      assert forall p :: p in init ==> p in s;
      assert Distinct(s) ==> last !in init;
      Without(init, x) + (if last != x then [last] else [])
  }

  /** The injured player's teammates: the rest of the player's team roster. */
  function Teammates(players: seq<Player>, teamOf: map<Player, Team>, pname: Player): seq<Player>
    requires pname in teamOf
  {
    Without(TeamRoster(players, teamOf, teamOf[pname]), pname)
  }

  /** The usage a designation takes away from a player whose usage is `orig`. */
  function LostUsage(status: Status, orig: real): real
  {
    if status.Out? then orig else orig * (status.pct as real / 100.0)
  }

  /** The usage a designated player keeps. */
  function RemainingUsage(status: Status, orig: real): (kept: real)
    ensures kept + LostUsage(status, orig) == orig
  {
    if status.Out? then 0.0 else orig * (1.0 - status.pct as real / 100.0)
  }

  /** One pass of the injury loop: reduce the player, then hand the loss to teammates. */
  ghost function ApplyInjury(inj: Injury, players: seq<Player>, teamOf: map<Player, Team>, m: UsageMap): (r: UsageMap)
    requires TeamsKnown(players, teamOf)
    requires KeysWithin(m, players)
    ensures KeysWithin(r, players)
  {
    if inj.player !in m then m
    else
      var orig := m[inj.player];
      var lost := LostUsage(inj.status, orig);
      var teammates := Teammates(players, teamOf, inj.player);
      var reduced := m[inj.player := RemainingUsage(inj.status, orig)];
      RosterMembers(players, teamOf, teamOf[inj.player]);
      if |teammates| > 0 && lost > 0.0 then Redistributed(teammates, reduced, lost) else reduced
  }

  /** The injury loop: the designations applied in order, each to the previous pass's output. */
  ghost function ApplyAll(injuries: seq<Injury>, players: seq<Player>, teamOf: map<Player, Team>, m: UsageMap): (r: UsageMap)
    requires TeamsKnown(players, teamOf)
    requires KeysWithin(m, players)
    ensures KeysWithin(r, players)
    decreases |injuries|
  {
    if injuries == [] then m
    else ApplyInjury(injuries[|injuries| - 1], players, teamOf, ApplyAll(injuries[..|injuries| - 1], players, teamOf, m))
  }

  /** `groups` holds exactly the non-empty team rosters of `players`. */
  ghost predicate Grouped(groups: map<Team, seq<Player>>, players: seq<Player>, teamOf: map<Player, Team>)
  {
    (forall t :: t in groups ==> groups[t] == TeamRoster(players, teamOf, t) && groups[t] != []) &&
    (forall t :: t !in groups ==> TeamRoster(players, teamOf, t) == [])
  }

  /** Groups the listed players by team, each group in list order. */
  method GroupByTeam(players: seq<Player>, teamOf: map<Player, Team>) returns (groups: map<Team, seq<Player>>)
    requires TeamsKnown(players, teamOf)
    ensures Grouped(groups, players, teamOf)
  {
    groups := map[];
    var i := 0;
    while i < |players|
      invariant 0 <= i <= |players|
      invariant forall t :: t in groups ==> groups[t] == TeamRoster(players[..i], teamOf, t) && groups[t] != []
      invariant forall t :: t !in groups ==> TeamRoster(players[..i], teamOf, t) == []
    {
      assert players[..i + 1][..i] == players[..i];
      var p := players[i];
      var team := teamOf[p];
      var group := if team in groups then groups[team] else [];
      groups := groups[team := group + [p]];
      i := i + 1;
    }
    assert players[..|players|] == players;
  }

  /** The injury loop over a copy of the starting usage map. */
  method ApplyInjuries(injuries: seq<Injury>, players: seq<Player>, teamOf: map<Player, Team>, usage: UsageMap)
    returns (adjusted: UsageMap)
    requires Distinct(players)
    requires TeamsKnown(players, teamOf)
    requires KeysWithin(usage, players)
    ensures adjusted == ApplyAll(injuries, players, teamOf, usage)
  {
    var groups := GroupByTeam(players, teamOf);
    adjusted := usage;
    var i := 0;
    while i < |injuries|
      invariant 0 <= i <= |injuries|
      invariant adjusted == ApplyAll(injuries[..i], players, teamOf, usage)
    {
      ApplyAllExtend(injuries, i, players, teamOf, usage);
      adjusted := ApplyInjuryStep(injuries[i], players, teamOf, groups, adjusted);
      i := i + 1;
    }
    assert injuries[..|injuries|] == injuries;
  }

  /** The fold over one more designation is one more pass. */
  lemma ApplyAllExtend(injuries: seq<Injury>, i: nat, players: seq<Player>, teamOf: map<Player, Team>, m: UsageMap)
    requires i < |injuries|
    requires TeamsKnown(players, teamOf)
    requires KeysWithin(m, players)
    ensures ApplyAll(injuries[..i + 1], players, teamOf, m)
         == ApplyInjury(injuries[i], players, teamOf, ApplyAll(injuries[..i], players, teamOf, m))
  {
    assert injuries[..i + 1][..i] == injuries[..i];
  }

  /** One pass of the injury loop, reading each roster from the team grouping. */
  method ApplyInjuryStep(inj: Injury, players: seq<Player>, teamOf: map<Player, Team>,
                         groups: map<Team, seq<Player>>, adjusted: UsageMap)
    returns (next: UsageMap)
    requires Distinct(players)
    requires TeamsKnown(players, teamOf)
    requires KeysWithin(adjusted, players)
    requires Grouped(groups, players, teamOf)
    ensures next == ApplyInjury(inj, players, teamOf, adjusted)
  {
    var pname := inj.player;
    if pname !in adjusted {
      return adjusted;
    }
    var team := teamOf[pname];
    var roster := if team in groups then groups[team] else [];
    var teammates := Without(roster, pname);
    assert teammates == Teammates(players, teamOf, pname);
    RosterMembers(players, teamOf, team);
    var orig := adjusted[pname];
    var lost := LostUsage(inj.status, orig);
    var reduced := adjusted[pname := RemainingUsage(inj.status, orig)];
    if |teammates| > 0 && lost > 0.0 {
      next := RedistributeLostUsage(teammates, reduced, lost);
    } else {
      next := reduced;
    }
  }

  // ---------------------------------------------------------------
  // Team totals
  // ---------------------------------------------------------------

  /** Total usage of one team's listed players. */
  ghost function TeamTotal(m: UsageMap, players: seq<Player>, teamOf: map<Player, Team>, team: Team): real
  {
    SumUsage(m, TeamRoster(players, teamOf, team))
  }

  /** The part of a pass's lost usage that no teammate receives. */
  ghost function Dropped(inj: Injury, players: seq<Player>, teamOf: map<Player, Team>, m: UsageMap): real
    requires TeamsKnown(players, teamOf)
    requires KeysWithin(m, players)
  {
    if inj.player !in m then 0.0
    else
      var lost := LostUsage(inj.status, m[inj.player]);
      if |Teammates(players, teamOf, inj.player)| > 0 && lost > 0.0 then 0.0 else lost
  }

  /** Removing one player from a list of distinct players removes exactly that player's usage from the total. */
  lemma {:induction false} SumUsageWithout(m: UsageMap, s: seq<Player>, x: Player)
    requires Distinct(s)
    ensures SumUsage(m, s) == SumUsage(m, Without(s, x)) + (if x in s then UsageOf(m, x) else 0.0)
    decreases |s|
  {
    if s != [] {
      var init, last := s[..|s| - 1], s[|s| - 1];
      assert Distinct(init);
      assert last !in init;
      assert forall p :: p in s ==> p in init || p == last;
      SumUsageWithout(m, init, x);
      var rest := Without(init, x);
      if last != x {
        assert (rest + [last])[..|rest|] == rest;
      } else {
        assert Without(s, x) == rest;
      }
    }
  }

  /**
   * One pass changes the injured player's team total by exactly the usage it
   * drops, and leaves every other team's total as it was.
   */
  lemma ApplyInjuryTeamTotals(inj: Injury, players: seq<Player>, teamOf: map<Player, Team>, m: UsageMap, team: Team)
    requires Distinct(players)
    requires TeamsKnown(players, teamOf)
    requires KeysWithin(m, players)
    ensures TeamTotal(ApplyInjury(inj, players, teamOf, m), players, teamOf, team)
         == TeamTotal(m, players, teamOf, team)
            - (if inj.player in m && teamOf[inj.player] == team then Dropped(inj, players, teamOf, m) else 0.0)
  {
    if inj.player in m && teamOf[inj.player] == team {
      InjuredTeamTotal(inj, players, teamOf, m);
    } else {
      OtherTeamTotal(inj, players, teamOf, m, team);
    }
  }

  /** The injured player's team loses exactly the dropped usage. */
  lemma InjuredTeamTotal(inj: Injury, players: seq<Player>, teamOf: map<Player, Team>, m: UsageMap)
    requires Distinct(players)
    requires TeamsKnown(players, teamOf)
    requires KeysWithin(m, players)
    requires inj.player in m
    ensures TeamTotal(ApplyInjury(inj, players, teamOf, m), players, teamOf, teamOf[inj.player])
         == TeamTotal(m, players, teamOf, teamOf[inj.player]) - Dropped(inj, players, teamOf, m)
  {
    var r := ApplyInjury(inj, players, teamOf, m);
    var pname := inj.player;
    var orig := m[pname];
    var lost := LostUsage(inj.status, orig);
    var kept := RemainingUsage(inj.status, orig);
    var roster := TeamRoster(players, teamOf, teamOf[pname]);
    var teammates := Without(roster, pname);
    var reduced := m[pname := kept];
    RosterMembers(players, teamOf, teamOf[pname]);
    assert pname in roster;
    assert UsageOf(r, pname) == kept;
    SumUsageAgree(m, reduced, teammates);
    SumUsageWithout(m, roster, pname);
    SumUsageWithout(r, roster, pname);
    if |teammates| > 0 && lost > 0.0 {
      RedistributedConservesTotal(teammates, reduced, lost);
    }
  }

  /** Every other team's total is unchanged by a pass. */
  lemma OtherTeamTotal(inj: Injury, players: seq<Player>, teamOf: map<Player, Team>, m: UsageMap, team: Team)
    requires TeamsKnown(players, teamOf)
    requires KeysWithin(m, players)
    requires inj.player in m ==> teamOf[inj.player] != team
    ensures TeamTotal(ApplyInjury(inj, players, teamOf, m), players, teamOf, team) == TeamTotal(m, players, teamOf, team)
  {
    var roster := TeamRoster(players, teamOf, team);
    RosterMembers(players, teamOf, team);
    forall p | p in roster
      ensures UsageOf(ApplyInjury(inj, players, teamOf, m), p) == UsageOf(m, p)
    {
      ApplyInjuryOtherTeams(inj, players, teamOf, m, p);
    }
    SumUsageAgree(m, ApplyInjury(inj, players, teamOf, m), roster);
  }

  /** A pass only touches the injured player's team. */
  lemma ApplyInjuryOtherTeams(inj: Injury, players: seq<Player>, teamOf: map<Player, Team>, m: UsageMap, p: Player)
    requires TeamsKnown(players, teamOf)
    requires KeysWithin(m, players)
    requires p in players
    requires inj.player in m ==> teamOf[inj.player] != teamOf[p]
    ensures UsageOf(ApplyInjury(inj, players, teamOf, m), p) == UsageOf(m, p)
  {
    if inj.player in m {
      assert p != inj.player;
      RosterMembers(players, teamOf, teamOf[inj.player]);
      assert p !in Teammates(players, teamOf, inj.player);
    }
  }

  /** With non-negative usages and a reduction of at most 100%, usages stay non-negative. */
  lemma ApplyInjuryNonNegative(inj: Injury, players: seq<Player>, teamOf: map<Player, Team>, m: UsageMap)
    requires TeamsKnown(players, teamOf)
    requires KeysWithin(m, players)
    requires NonNegative(m)
    requires SensibleStatus(inj.status)
    ensures NonNegative(ApplyInjury(inj, players, teamOf, m))
    ensures inj.player in m ==> LostUsage(inj.status, m[inj.player]) >= 0.0
  {
    if inj.player in m {
      var orig := m[inj.player];
      LossBounds(inj.status, orig);
      var reduced := m[inj.player := RemainingUsage(inj.status, orig)];
      assert NonNegative(reduced);
      var lost := LostUsage(inj.status, orig);
      var teammates := Teammates(players, teamOf, inj.player);
      if |teammates| > 0 && lost > 0.0 {
        RedistributedNonNegative(teammates, reduced, lost);
      }
    }
  }

  /** A sensible designation on a non-negative usage loses and keeps amounts between 0 and the usage. */
  lemma LossBounds(status: Status, orig: real)
    requires SensibleStatus(status)
    requires orig >= 0.0
    ensures 0.0 <= LostUsage(status, orig) <= orig
    ensures 0.0 <= RemainingUsage(status, orig) <= orig
  {
    if status.Limited? {
      var f := status.pct as real / 100.0;
      assert 0.0 <= f <= 1.0;
      assert orig * f >= 0.0;
      assert orig * (1.0 - f) >= 0.0;
    }
  }

  /**
   * The injured player ends a pass with the usage the designation leaves:
   * exactly 0 when Out, `orig * (1 - pct/100)` when Limited.
   */
  lemma InjuredPlayerUsage(inj: Injury, players: seq<Player>, teamOf: map<Player, Team>, m: UsageMap)
    requires TeamsKnown(players, teamOf)
    requires KeysWithin(m, players)
    requires inj.player in m
    ensures inj.player in ApplyInjury(inj, players, teamOf, m)
    ensures ApplyInjury(inj, players, teamOf, m)[inj.player] == RemainingUsage(inj.status, m[inj.player])
    ensures inj.status == Out ==> ApplyInjury(inj, players, teamOf, m)[inj.player] == 0.0
  {
    var r := ApplyInjury(inj, players, teamOf, m);
    assert inj.player !in Teammates(players, teamOf, inj.player);
    assert UsageOf(r, inj.player) == RemainingUsage(inj.status, m[inj.player]);
  }

  /**
   * A player missing from the usage map is skipped; nothing is handed on
   * unless there are teammates and the loss is positive.
   */
  lemma ApplyInjuryEffect(inj: Injury, players: seq<Player>, teamOf: map<Player, Team>, m: UsageMap)
    requires TeamsKnown(players, teamOf)
    requires KeysWithin(m, players)
    ensures inj.player !in m ==> ApplyInjury(inj, players, teamOf, m) == m
    ensures inj.player in m && !(|Teammates(players, teamOf, inj.player)| > 0 && LostUsage(inj.status, m[inj.player]) > 0.0) ==>
              ApplyInjury(inj, players, teamOf, m) == m[inj.player := RemainingUsage(inj.status, m[inj.player])]
  {
  }

  // ---------------------------------------------------------------
  // The whole loop
  // ---------------------------------------------------------------

  /**
   * Every team's total usage survives the whole injury loop when usages are
   * non-negative, reductions are between 0 and 100 percent, and every
   * designated player has at least one teammate.
   */
  lemma {:induction false} ApplyAllConservesTeamTotals(injuries: seq<Injury>, players: seq<Player>, teamOf: map<Player, Team>, m: UsageMap, team: Team)
    requires Distinct(players)
    requires TeamsKnown(players, teamOf)
    requires KeysWithin(m, players)
    requires NonNegative(m)
    requires forall i :: 0 <= i < |injuries| ==> SensibleStatus(injuries[i].status)
    requires forall i :: 0 <= i < |injuries| && injuries[i].player in players ==>
               |Teammates(players, teamOf, injuries[i].player)| > 0
    ensures NonNegative(ApplyAll(injuries, players, teamOf, m))
    ensures TeamTotal(ApplyAll(injuries, players, teamOf, m), players, teamOf, team) == TeamTotal(m, players, teamOf, team)
    decreases |injuries|
  {
    if injuries != [] {
      var init, last := injuries[..|injuries| - 1], injuries[|injuries| - 1];
      ApplyAllConservesTeamTotals(init, players, teamOf, m, team);
      var mid := ApplyAll(init, players, teamOf, m);
      ApplyInjuryNonNegative(last, players, teamOf, mid);
      ApplyInjuryTeamTotals(last, players, teamOf, mid, team);
      if last.player in mid {
        assert Dropped(last, players, teamOf, mid) == 0.0;
      }
    }
  }

  /** Players whose team has no designated player keep their usage through the whole loop. */
  lemma {:induction false} ApplyAllLeavesOtherTeams(injuries: seq<Injury>, players: seq<Player>, teamOf: map<Player, Team>, m: UsageMap, p: Player)
    requires TeamsKnown(players, teamOf)
    requires KeysWithin(m, players)
    requires p in players
    requires forall i :: 0 <= i < |injuries| && injuries[i].player in players ==>
               teamOf[injuries[i].player] != teamOf[p]
    ensures UsageOf(ApplyAll(injuries, players, teamOf, m), p) == UsageOf(m, p)
    decreases |injuries|
  {
    if injuries != [] {
      var init, last := injuries[..|injuries| - 1], injuries[|injuries| - 1];
      ApplyAllLeavesOtherTeams(init, players, teamOf, m, p);
      ApplyInjuryOtherTeams(last, players, teamOf, ApplyAll(init, players, teamOf, m), p);
    }
  }

  /** Without any teammate the whole loss is dropped: the team total falls by it. */
  lemma LoneInjuredPlayerDropsLoss(inj: Injury, players: seq<Player>, teamOf: map<Player, Team>, m: UsageMap)
    requires Distinct(players)
    requires TeamsKnown(players, teamOf)
    requires KeysWithin(m, players)
    requires inj.player in m
    requires Teammates(players, teamOf, inj.player) == []
    ensures TeamTotal(ApplyInjury(inj, players, teamOf, m), players, teamOf, teamOf[inj.player])
         == TeamTotal(m, players, teamOf, teamOf[inj.player]) - LostUsage(inj.status, m[inj.player])
  {
    ApplyInjuryTeamTotals(inj, players, teamOf, m, teamOf[inj.player]);
  }

  /** An Out player with one teammate: the teammate takes the whole usage, 0.20 + 0.30 = 0.50. */
  lemma SingleTeammateExample(a: Player, b: Player, team: Team)
    requires a != b
    ensures ApplyAll([Injury(a, Out)], [a, b], map[a := team, b := team], map[a := 0.30, b := 0.20])
         == map[a := 0.0, b := 0.50]
  {
    var players, teamOf := [a, b], map[a := team, b := team];
    var m := map[a := 0.30, b := 0.20];
    assert [Injury(a, Out)][..0] == [];
    ExampleTeammates(a, b, team);
    assert m[a := 0.0] == map[a := 0.0, b := 0.20];
    ExampleRedistribution(a, b);
  }

  lemma ExampleTeammates(a: Player, b: Player, team: Team)
    requires a != b
    ensures Teammates([a, b], map[a := team, b := team], a) == [b]
  {
    ExampleRoster(a, b, team);
    assert [a, b][..1] == [a] && [a][..0] == [];
    assert Without([a], a) == [];
  }

  lemma ExampleRoster(a: Player, b: Player, team: Team)
    ensures TeamRoster([a, b], map[a := team, b := team], team) == [a, b]
  {
    var teamOf := map[a := team, b := team];
    assert [a, b][..1] == [a] && [a][..0] == [];
    assert TeamRoster([], teamOf, team) == [];
    assert TeamRoster([a], teamOf, team) == [a];
  }

  lemma ExampleRedistribution(a: Player, b: Player)
    requires a != b
    ensures Redistributed([b], map[a := 0.0, b := 0.20], 0.30) == map[a := 0.0, b := 0.50]
  {
    var reduced := map[a := 0.0, b := 0.20];
    assert SumUsage(reduced, [b]) == 0.20 by {
      assert [b][..0] == [];
    }
    var r := Redistributed([b], reduced, 0.30);
    RedistributedAt([b], reduced, 0.30, b);
    assert UsageOf(r, a) == 0.0;
  }
}
