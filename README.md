# NBA Monte Carlo dashboard: odds, projections and injury-aware usage

This project models the deterministic core of the Streamlit script
`nba_dashboard.py`, an NBA betting dashboard. That core has four parts, one
Dafny module each:

- **Odds** (`odds.dfy`): American odds become profit per unit staked.
  Expected value follows from a win probability. These are proved against
  two reference definitions, decimal odds and implied probability.
- **Projection** (`projection.dfy`): a team missing from the ratings store
  gets the league-average default rating. Each side's mean points come from
  its offence and the opposing defence, scaled by the average pace and by
  the home/away factors 1.025 and 0.975. Each team gets a standard
  deviation proportional to its mean. The covariance matrix handed to the
  score sampler is proved positive semidefinite for any correlation in
  [-1, 1].
- **Usage** (`usage.dfy`): `redistribute_lost_usage` spreads a sidelined
  player's lost usage over the teammates. The split is proportional to
  their current usage, or equal when the teammates' usages sum to zero or
  less.
  - Modelled as a method with loops: it reads the teammates' current
    usages with a running sum, then adds each gain.
  - Proved equal to the specification function `Redistributed`.
  - Proved to raise the teammates' total by exactly the lost amount.
- **Injuries** (`injuries.dfy`): the driver.
  - The players are grouped by team.
  - Each selected designation is applied in selection order to the
    previous pass's output. Out takes all usage; Limited takes a
    percentage.
  - The method is proved equal to a fold of one-pass functions.
  - Proved across the whole loop: every team's total usage is conserved
    when every injured player has a teammate. Teams with no designated
    player keep every usage unchanged.

Python floats are modelled as exact `real`s and odds as `int`. Usage maps
are `map<string, real>`. Rosters, teammates and injury selections are
sequences. The Python dictionary that `redistribute_lost_usage` mutates in
place and returns is modelled as a map value: the method returns the new
map.

For the pairing home `{off 118, def 110, pace 102}` against away
`{off 112, def 113, pace 98}`, the code's formula gives about 117.8 and
103.5 (`Projection.StrongHomeExample`).

## Model

| member | source | states |
|---|---|---|
| Odds.AmericanToProfit | nba_dashboard.py:15-18 | profit is positive; for positive odds 100 × profit = odds, for negative odds \|odds\| × profit = 100 (odds 0 is excluded: the source divides by zero) |
| Odds.AmericanRoundTrip | nba_dashboard.py:15-18 | on quoted odds (+100 and up, or below -100) converting the profit back to American odds gives the original odds |
| Odds.ProfitVersusEvenMoney | nba_dashboard.py:15-18 | positive odds pay at least even money exactly when they are +100 or more; negative odds pay at most even money exactly when they are -100 or less |
| Odds.ImpliedProbabilityBounds | nba_dashboard.py:15-18 | the break-even probability 1 / (1 + profit) of any non-zero odds lies strictly between 0 and 1 |
| Odds.CalculateEv | nba_dashboard.py:20-22 | EV of a one-unit stake equals prob × decimal odds − 1, decimal odds being 1 + profit |
| Odds.EvEndpoints | nba_dashboard.py:20-22 | EV is -1 at probability 0 and equals the profit at probability 1 |
| Odds.EvStrictlyIncreasing | nba_dashboard.py:20-22 | EV is strictly increasing in the win probability |
| Odds.EvSignMatchesImpliedProbability | nba_dashboard.py:20-22 | EV is zero exactly at the implied probability and positive exactly above it |
| Odds.StandardJuice | nba_dashboard.py:15-22 | at -110 the profit is 10/11, break-even is at 11/21 (about 0.5238) and EV at 0.45 is negative |
| Projection.ProjectGame | nba_dashboard.py:74-86 | home mean = 1.025 × neutral mean of home against away, away mean = 0.975 × neutral mean of away against home; neutral mean = 112 × off × opposing def / 114² × average pace / 100, with missing teams read as the default rating |
| Projection.DefaultMatchup | nba_dashboard.py:45 | two teams missing from the store project to 114.8 at home and 109.2 away |
| Projection.MissingTeamIsDefault | nba_dashboard.py:74-75 | a missing team, home or away, projects exactly as if stored with the default rating {114, 114, 100} |
| Projection.RoleSwap | nba_dashboard.py:77-83 | the formula is symmetric: a team's mean before the court factor is the same on either side |
| Projection.HomeCourtAdvantage | nba_dashboard.py:85-86 | between identically rated teams with positive ratings the home side projects strictly higher |
| Projection.NeutralMeanMonotoneInOffence | nba_dashboard.py:79-83 | against a positive defence and positive total pace, a higher offence gives a strictly higher neutral mean |
| Projection.HomeMeanMonotoneInOffence | nba_dashboard.py:74-86 | raising the home team's offence strictly raises the home projection |
| Projection.StrongHomeExample | nba_dashboard.py:74-86 | 118/110/102 at home against 112/113/98 projects between 117.7 and 117.8 at home and between 103.5 and 103.6 away |
| Projection.TeamSd | nba_dashboard.py:24-26 | the standard deviation is one tenth of the mean points |
| Projection.TeamSdProperties | nba_dashboard.py:24-26 | the standard deviation is linear in the mean, is 11 at a 110-point mean, and is positive for positive means |
| Projection.Covariance | nba_dashboard.py:238-241 | 2×2 matrix with the squared standard deviations on the diagonal and the same off-diagonal entry rho × sd_home × sd_away on both sides |
| Projection.CovariancePositiveSemidefinite | nba_dashboard.py:238-241 | for any correlation in [-1, 1] the matrix's quadratic form is never negative |
| Projection.GameCovarianceValid | nba_dashboard.py:235-241 | the game's matrix built from the two team standard deviations and rho 0.30 is positive semidefinite |
| Usage.Shares | nba_dashboard.py:176 | the equal-split divisor is the teammate count, and at least 1 |
| Usage.Redistributed | nba_dashboard.py:165-185 | the redistributed map has exactly the old keys plus the teammates, and every non-teammate's usage is unchanged |
| Usage.RedistributeLostUsage | nba_dashboard.py:165-185 | the returned map is `Redistributed`; with at least one teammate the teammates' total rises by exactly the lost usage |
| Usage.CurrentUsages | nba_dashboard.py:172-173 | yields each teammate's current usage, a missing entry read as 0, and their running sum |
| Usage.AddToEach | nba_dashboard.py:176-183 | each teammate's usage rises by its own gain, keys grow by the teammates only, and nobody else changes |
| Usage.RedistributedConservesTotal | nba_dashboard.py:165-185 | with at least one teammate the teammates' total rises by exactly the lost usage |
| Usage.EqualSplitConservesTotal | nba_dashboard.py:174-178 | in the equal-split branch the teammates' total rises by exactly the lost usage |
| Usage.ProportionalConservesTotal | nba_dashboard.py:180-183 | in the proportional branch the teammates' total rises by exactly the lost usage |
| Usage.EqualSplitFallback | nba_dashboard.py:174-178 | when the teammates' usages sum to zero or less, each gains exactly lost / teammate count |
| Usage.ProportionalShare | nba_dashboard.py:180-183 | otherwise each gains lost × usage / total, so a teammate with zero usage stays at zero |
| Usage.RedistributedNonNegative | nba_dashboard.py:165-185 | non-negative usages and a non-negative loss leave every usage non-negative |
| Injuries.StartingUsage | nba_dashboard.py:162 | one entry per listed player, holding its declared usage or 0 when none is declared; its keys are the listed players, which is the key requirement of `Injuries.ApplyInjuries` |
| Injuries.RosterMembers | nba_dashboard.py:189-191 | a team's roster holds exactly the listed players of that team, without repeats when the list has none |
| Injuries.Without | nba_dashboard.py:201 | the teammates are the roster minus the injured player, without repeats when the roster has none |
| Injuries.GroupByTeam | nba_dashboard.py:189-191 | every group is its team's roster in list order and is non-empty; a team without a group has an empty roster |
| Injuries.RemainingUsage | nba_dashboard.py:203-211 | the usage a designated player keeps plus the usage taken away is the original usage |
| Injuries.LossBounds | nba_dashboard.py:207-211 | with a reduction between 0 and 100 percent, both the kept and the lost usage lie between 0 and the original usage |
| Injuries.ApplyInjury | nba_dashboard.py:197-213 | a pass never adds a usage entry for a player outside the listed players |
| Injuries.ApplyAll | nba_dashboard.py:196-213 | the passes together never add an entry outside the listed players |
| Injuries.ApplyInjuryStep | nba_dashboard.py:197-213 | one loop pass, reading the roster from the team grouping, produces exactly `ApplyInjury` |
| Injuries.ApplyInjuries | nba_dashboard.py:193-213 | the loop over the selections in order produces exactly the fold `ApplyAll` of one-pass updates |
| Injuries.InjuredPlayerUsage | nba_dashboard.py:203-211 | the injured player ends the pass with the usage the designation leaves, exactly 0 when Out |
| Injuries.ApplyInjuryEffect | nba_dashboard.py:197-213 | a player missing from the map is skipped; with no teammate or no positive loss, only the injured player's entry changes |
| Injuries.ApplyInjuryTeamTotals | nba_dashboard.py:201-213 | a pass lowers the injured player's team total by exactly the usage no teammate receives and leaves every other team total unchanged |
| Injuries.ApplyInjuryOtherTeams | nba_dashboard.py:199-213 | a pass leaves every player of another team unchanged |
| Injuries.ApplyInjuryNonNegative | nba_dashboard.py:203-213 | with non-negative usages and a reduction of at most 100 percent, usages stay non-negative and the loss is non-negative |
| Injuries.ApplyAllConservesTeamTotals | nba_dashboard.py:196-213 | if every injured player has a teammate, usages are non-negative and reductions lie between 0 and 100 percent, every team total survives the whole loop |
| Injuries.ApplyAllLeavesOtherTeams | nba_dashboard.py:196-213 | a player whose team has no designated player keeps its usage through the whole loop |
| Injuries.LoneInjuredPlayerDropsLoss | nba_dashboard.py:205-213 | an injured player without teammates drops the lost usage: the team total falls by exactly that amount |
| Injuries.SingleTeammateExample | nba_dashboard.py:203-206 | an Out player at 0.30 with one teammate at 0.20 leaves 0 and 0.50 |

## Left out

- Monte Carlo sampling with `np.random.multivariate_normal`, and the margin and total arrays derived from it (nba_dashboard.py:243-247). This is randomness and floating point. Only the covariance matrix fed to it is modelled.
- The Streamlit interface and session state: page setup, the injury manager widgets, tables and market selection. Injury selections, statuses and percentages are inputs to the model instead.
- Loading the ratings JSON files. The rating and player maps are inputs.
- The live schedule lookup through `nba_api` and the parsing of "Away @ Home" labels. The two team names are inputs.
- The pandas table of usage adjustments (nba_dashboard.py:216-223). It is display only.
- The market selector and its remembered odds and lines (nba_dashboard.py:250-259). These are widget state only.
- IEEE floating-point rounding. All arithmetic is exact over the reals.
- The rating field `volatility`. It is carried in the record, but the script never reads it.
- Aliasing of the usage dictionary. `redistribute_lost_usage` mutates its argument and returns it; the model returns a new map value, which is what the caller rebinds.
- Usage.RedistributeLostUsage: requires distinct teammates. Every caller passes a filtered roster built from dictionary keys, which has no repeats.
- Injuries.ApplyInjuries: requires a player list without repeats in which every player has a team. The source builds the list from dictionary keys and keeps only players whose team is one of the two playing.
- Injuries.ApplyAllConservesTeamTotals: requires reductions between 0 and 100 percent, which the 5-to-60 slider guarantees. It also requires non-negative starting usages, which the script never checks in the ratings file: an Out player with a negative usage fails the `lost > 0` guard, so the loss is not handed on and the team total rises.
- Injuries.ApplyInjury: models only the two statuses the selector offers, Out and Limited.
