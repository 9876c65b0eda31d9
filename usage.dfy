/**
 * Redistribution of a sidelined player's lost usage over teammates: in
 * proportion to their current usage, or in equal shares when the teammates'
 * usages sum to zero or less. Usage shares are modelled as exact reals.
 */
module Usage {

  type Player = string

  /** Usage share per player. */
  type UsageMap = map<Player, real>

  /** Usage of `p`, reading a missing entry as 0.0. */
  function UsageOf(m: UsageMap, p: Player): real
  {
    if p in m then m[p] else 0.0
  }

  /** Total usage of the players in `s`, accumulated left to right. */
  function SumUsage(m: UsageMap, s: seq<Player>): real
  {
    if s == [] then 0.0 else SumUsage(m, s[..|s| - 1]) + UsageOf(m, s[|s| - 1])
  }

  predicate Distinct(s: seq<Player>)
  {
    forall i, j :: 0 <= i < j < |s| ==> s[i] != s[j]
  }

  predicate NonNegative(m: UsageMap)
  {
    forall p :: p in m ==> m[p] >= 0.0
  }

  /** Number of equal shares: the teammate count, but at least one. */
  function Shares(team: seq<Player>): (n: nat)
    ensures n >= 1 && (|team| > 0 ==> n == |team|)
  {
    if |team| > 1 then |team| else 1
  }

  /** What teammate `p` receives out of `lost`. */
  ghost function Gain(team: seq<Player>, m: UsageMap, lost: real, p: Player): real
  {
    var total := SumUsage(m, team);
    if total <= 0.0 then lost / Shares(team) as real else lost * (UsageOf(m, p) / total)
  }

  /** The usage map after `lost` has been spread over `team`. */
  ghost function Redistributed(team: seq<Player>, m: UsageMap, lost: real): (r: UsageMap)
    ensures forall p :: p in r <==> p in m || p in team
    ensures forall p :: p !in team ==> UsageOf(r, p) == UsageOf(m, p)
  {
    map p | p in m.Keys + (set x | x in team) :: if p in team then UsageOf(m, p) + Gain(team, m, lost, p) else m[p]
  }

  /**
   * Spreads `lost` over `team`, updating entries in place and returning the
   * map. Entries of players outside `team` are left as they were.
   */
  method RedistributeLostUsage(team: seq<Player>, usage: UsageMap, lost: real) returns (result: UsageMap)
    requires Distinct(team)
    ensures result == Redistributed(team, usage, lost)
    ensures |team| > 0 ==> SumUsage(result, team) == SumUsage(usage, team) + lost
  {
    var current, total := CurrentUsages(team, usage);
    var gains: seq<real>;
    if total <= 0.0 {
      // equal split
      var per := lost / Shares(team) as real;
      gains := seq(|team|, j => per);
      assert forall j :: 0 <= j < |team| ==> gains[j] == Gain(team, usage, lost, team[j]);
      result := AddToEach(team, usage, gains);
    } else {
      var shares := seq(|team|, j requires 0 <= j < |team| => current[j] / total);
      gains := seq(|team|, j requires 0 <= j < |team| => lost * shares[j]);
      forall j | 0 <= j < |team|
        ensures gains[j] == Gain(team, usage, lost, team[j])
      {
        GainProportional(team, usage, lost, team[j]);
      }
      result := AddToEach(team, usage, gains);
    }
    MatchesRedistributed(team, usage, lost, result, gains);
    if |team| > 0 {
      RedistributedConservesTotal(team, usage, lost);
    }
  }

  /** The teammates' current usages, in order, and their sum. */
  method CurrentUsages(team: seq<Player>, usage: UsageMap) returns (current: seq<real>, total: real)
    ensures |current| == |team|
    ensures forall j :: 0 <= j < |team| ==> current[j] == UsageOf(usage, team[j])
    ensures total == SumUsage(usage, team)
  {
    current, total := [], 0.0;
    var i := 0;
    while i < |team|
      invariant 0 <= i <= |team|
      invariant |current| == i
      invariant forall j :: 0 <= j < i ==> current[j] == UsageOf(usage, team[j])
      invariant total == SumUsage(usage, team[..i])
    {
      assert team[..i + 1][..i] == team[..i];
      current := current + [UsageOf(usage, team[i])];
      total := total + UsageOf(usage, team[i]);
      i := i + 1;
    }
    assert team[..|team|] == team;
  }

  /** Adds `gains[j]` to the usage of `team[j]`, reading a missing entry as 0.0. */
  method AddToEach(team: seq<Player>, usage: UsageMap, gains: seq<real>) returns (result: UsageMap)
    requires Distinct(team)
    requires |gains| == |team|
    ensures forall p :: p in result <==> p in usage || p in team
    ensures forall p :: p !in team ==> UsageOf(result, p) == UsageOf(usage, p)
    ensures forall j :: 0 <= j < |team| ==> result[team[j]] == UsageOf(usage, team[j]) + gains[j]
  {
    result := usage;
    var i := 0;
    while i < |team|
      invariant 0 <= i <= |team|
      invariant forall p :: p in result <==> p in usage || p in team[..i]
      invariant forall p :: p !in team[..i] ==> UsageOf(result, p) == UsageOf(usage, p)
      invariant forall j :: 0 <= j < i ==> result[team[j]] == UsageOf(usage, team[j]) + gains[j]
    {
      assert team[..i + 1] == team[..i] + [team[i]];
      assert team[i] !in team[..i];
      result := result[team[i] := UsageOf(result, team[i]) + gains[i]];
      i := i + 1;
    }
    assert team[..|team|] == team;
  }

  /** In the proportional branch the gain is the teammate's share of the total, times `lost`. */
  lemma GainProportional(team: seq<Player>, m: UsageMap, lost: real, p: Player)
    requires SumUsage(m, team) > 0.0
    ensures Gain(team, m, lost, p) == lost * (UsageOf(m, p) / SumUsage(m, team))
  {
  }

  /** A map that adds to each teammate exactly its `Gain`, and touches nothing else, is `Redistributed`. */
  lemma MatchesRedistributed(team: seq<Player>, m: UsageMap, lost: real, r: UsageMap, gains: seq<real>)
    requires |gains| == |team|
    requires forall j :: 0 <= j < |team| ==> gains[j] == Gain(team, m, lost, team[j])
    requires forall p :: p in r <==> p in m || p in team
    requires forall p :: p !in team ==> UsageOf(r, p) == UsageOf(m, p)
    requires forall j :: 0 <= j < |team| ==> r[team[j]] == UsageOf(m, team[j]) + gains[j]
    ensures r == Redistributed(team, m, lost)
  {
    var spec := Redistributed(team, m, lost);
    forall p | p in r
      ensures r[p] == spec[p]
    {
      if p in team {
        var j :| 0 <= j < |team| && team[j] == p;
      } else {
        assert UsageOf(r, p) == UsageOf(m, p);
      }
    }
    assert r.Keys == spec.Keys;
  }

  // ---------------------------------------------------------------
  // Sums
  // ---------------------------------------------------------------

  /** `n` copies of `d` added up. */
  function Times(n: nat, d: real): real
  {
    if n == 0 then 0.0 else Times(n - 1, d) + d
  }

  lemma {:induction false} TimesIsProduct(n: nat, d: real)
    ensures Times(n, d) == n as real * d
  {
    if n > 0 {
      TimesIsProduct(n - 1, d);
      assert n as real * d == (n - 1) as real * d + d;
    }
  }

  /** Adding `d` to every listed player's usage adds `|s|` copies of `d` to their total. */
  lemma {:induction false} SumUsageShifted(m1: UsageMap, m2: UsageMap, s: seq<Player>, d: real)
    requires forall p :: p in s ==> UsageOf(m2, p) == UsageOf(m1, p) + d
    ensures SumUsage(m2, s) == SumUsage(m1, s) + Times(|s|, d)
  {
    if s != [] {
      var init, last := s[..|s| - 1], s[|s| - 1];
      assert last in s;
      assert forall p :: p in init ==> p in s;
      SumUsageShifted(m1, m2, init, d);
    }
  }

  /** `x` scaled by the factor `k`. */
  function Scale(k: real, x: real): real
  {
    k * x
  }

  lemma ScaleAdds(k: real, a: real, b: real)
    ensures Scale(k, a + b) == Scale(k, a) + Scale(k, b)
  {
  }

  /** Scaling every listed player's usage by `k` scales their total by `k`. */
  lemma {:induction false} SumUsageScaled(m1: UsageMap, m2: UsageMap, s: seq<Player>, k: real)
    requires forall p :: p in s ==> UsageOf(m2, p) == Scale(k, UsageOf(m1, p))
    ensures SumUsage(m2, s) == Scale(k, SumUsage(m1, s))
  {
    if s != [] {
      var init := s[..|s| - 1];
      assert forall p :: p in init ==> p in s;
      SumUsageScaled(m1, m2, init, k);
      assert s[|s| - 1] in s;
      ScaleAdds(k, SumUsage(m1, init), UsageOf(m1, s[|s| - 1]));
    }
  }

  /** Totals depend only on the listed players' usages. */
  lemma {:induction false} SumUsageAgree(m1: UsageMap, m2: UsageMap, s: seq<Player>)
    requires forall p :: p in s ==> UsageOf(m2, p) == UsageOf(m1, p)
    ensures SumUsage(m2, s) == SumUsage(m1, s)
  {
    if s != [] {
      var init := s[..|s| - 1];
      assert forall p :: p in init ==> p in s;
      SumUsageAgree(m1, m2, init);
      assert s[|s| - 1] in s;
    }
  }

  // ---------------------------------------------------------------
  // Properties of one redistribution
  // ---------------------------------------------------------------

  /** A teammate's new usage is its old usage plus its gain. */
  lemma RedistributedAt(team: seq<Player>, m: UsageMap, lost: real, p: Player)
    requires p in team
    ensures p in Redistributed(team, m, lost)
    ensures Redistributed(team, m, lost)[p] == UsageOf(m, p) + Gain(team, m, lost, p)
  {
  }

  /** With at least one teammate, the teammates' total rises by exactly `lost`. */
  lemma RedistributedConservesTotal(team: seq<Player>, m: UsageMap, lost: real)
    requires |team| > 0
    ensures SumUsage(Redistributed(team, m, lost), team) == SumUsage(m, team) + lost
  {
    if SumUsage(m, team) <= 0.0 {
      EqualSplitConservesTotal(team, m, lost);
    } else {
      ProportionalConservesTotal(team, m, lost);
    }
  }

  lemma EqualSplitConservesTotal(team: seq<Player>, m: UsageMap, lost: real)
    requires |team| > 0 && SumUsage(m, team) <= 0.0
    ensures SumUsage(Redistributed(team, m, lost), team) == SumUsage(m, team) + lost
  {
    var r := Redistributed(team, m, lost);
    var per := lost / |team| as real;
    EqualGains(team, m, lost);
    SumUsageShifted(m, r, team, per);
    EqualSplitTimes(|team|, lost);
  }

  /** In the equal-split branch every teammate gains `lost / |team|`. */
  lemma EqualGains(team: seq<Player>, m: UsageMap, lost: real)
    requires |team| > 0 && SumUsage(m, team) <= 0.0
    ensures forall p :: p in team ==> UsageOf(Redistributed(team, m, lost), p) == UsageOf(m, p) + lost / |team| as real
  {
    forall p | p in team
      ensures UsageOf(Redistributed(team, m, lost), p) == UsageOf(m, p) + lost / |team| as real
    {
      RedistributedAt(team, m, lost, p);
    }
  }

  /** `n` equal shares of `lost` add up to `lost`. */
  lemma EqualSplitTimes(n: nat, lost: real)
    requires n > 0
    ensures Times(n, lost / n as real) == lost
  {
    var per := lost / n as real;
    TimesIsProduct(n, per);
    SplitEvenly(n, lost);
  }

  lemma SplitEvenly(n: nat, lost: real)
    requires n > 0
    ensures n as real * (lost / n as real) == lost
  {
  }

  lemma ProportionalConservesTotal(team: seq<Player>, m: UsageMap, lost: real)
    requires SumUsage(m, team) > 0.0
    ensures SumUsage(Redistributed(team, m, lost), team) == SumUsage(m, team) + lost
  {
    var r := Redistributed(team, m, lost);
    var total := SumUsage(m, team);
    var k := 1.0 + lost / total;
    forall p | p in team
      ensures UsageOf(r, p) == Scale(k, UsageOf(m, p))
    {
      RedistributedAt(team, m, lost, p);
      ProportionalScale(team, m, lost, p);
    }
    SumUsageScaled(m, r, team, k);
    ScaleTotal(lost, total);
  }

  /** In the proportional branch a teammate's usage plus its gain is its usage scaled by `1 + lost / total`. */
  lemma ProportionalScale(team: seq<Player>, m: UsageMap, lost: real, p: Player)
    requires SumUsage(m, team) > 0.0
    ensures UsageOf(m, p) + Gain(team, m, lost, p) == Scale(1.0 + lost / SumUsage(m, team), UsageOf(m, p))
  {
    GainProportional(team, m, lost, p);
    ScaleShare(lost, UsageOf(m, p), SumUsage(m, team));
  }

  lemma ScaleTotal(lost: real, total: real)
    requires total > 0.0
    ensures Scale(1.0 + lost / total, total) == total + lost
  {
  }

  lemma ScaleShare(lost: real, u: real, total: real)
    requires total > 0.0
    ensures u + lost * (u / total) == Scale(1.0 + lost / total, u)
  {
  }

  /** Equal-split fallback: each teammate gains `lost / |team|`. */
  lemma EqualSplitFallback(team: seq<Player>, m: UsageMap, lost: real, p: Player)
    requires SumUsage(m, team) <= 0.0
    requires p in team
    ensures Redistributed(team, m, lost)[p] == UsageOf(m, p) + lost / |team| as real
  {
    RedistributedAt(team, m, lost, p);
  }

  /** Proportional branch: each teammate gains `lost` times its share `u / total`, so zero usage gains nothing. */
  lemma ProportionalShare(team: seq<Player>, m: UsageMap, lost: real, p: Player)
    requires SumUsage(m, team) > 0.0
    requires p in team
    ensures Redistributed(team, m, lost)[p] == UsageOf(m, p) + lost * (UsageOf(m, p) / SumUsage(m, team))
    ensures UsageOf(m, p) == 0.0 ==> Redistributed(team, m, lost)[p] == 0.0
  {
    RedistributedAt(team, m, lost, p);
    GainProportional(team, m, lost, p);
  }

  /** Non-negative usages and a non-negative loss give non-negative usages. */
  lemma RedistributedNonNegative(team: seq<Player>, m: UsageMap, lost: real)
    requires NonNegative(m)
    requires lost >= 0.0
    ensures NonNegative(Redistributed(team, m, lost))
  {
    var r := Redistributed(team, m, lost);
    forall p | p in r
      ensures r[p] >= 0.0
    {
      if p in team {
        RedistributedAt(team, m, lost, p);
        GainNonNegative(team, m, lost, p);
      } else {
        assert UsageOf(r, p) == UsageOf(m, p);
      }
    }
  }

  lemma GainNonNegative(team: seq<Player>, m: UsageMap, lost: real, p: Player)
    requires NonNegative(m)
    requires lost >= 0.0
    ensures Gain(team, m, lost, p) >= 0.0
  {
    var total := SumUsage(m, team);
    if total > 0.0 {
      var u := UsageOf(m, p);
      assert u >= 0.0;
      assert u / total >= 0.0;
    }
  }
}
