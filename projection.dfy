/**
 * Team score projection: a rating lookup with a league-average default,
 * the two teams' mean points, their standard deviations, and the covariance
 * matrix handed to the correlated score sampler.
 */
module Projection {

  /** A team's rating record; `volatility` is carried but unused by this script. */
  datatype TeamRating = TeamRating(off: real, def: real, pace: real, volatility: real)

  /** Rating used for a team missing from the ratings store. */
  const DefaultTeam := TeamRating(114.0, 114.0, 100.0, 1.0)

  /** League-average offence/defence rating and points per game. */
  const LeagueRating := 114.0
  const LeaguePoints := 112.0

  const HomeFactor := 1.025
  const AwayFactor := 0.975

  /** Correlation between the two teams' scores. */
  const Rho := 0.30

  datatype GameProjection = GameProjection(homeMean: real, awayMean: real)

  function RatingOf(ratings: map<string, TeamRating>, team: string): TeamRating
  {
    if team in ratings then ratings[team] else DefaultTeam
  }

  /**
   * Neutral-court mean of team `us` against `opp`: offence against the
   * opposing defence relative to league average, scaled by the two teams'
   * average pace.
   */
  ghost function NeutralMean(us: TeamRating, opp: TeamRating): real
  {
    LeaguePoints * (us.off * opp.def) / (LeagueRating * LeagueRating) * ((us.pace + opp.pace) / 200.0)
  }

  /** Mean points of home and away teams, computed step by step as the script does. */
  function ProjectGame(ratings: map<string, TeamRating>, homeTeam: string, awayTeam: string): (g: GameProjection)
    ensures g.homeMean == HomeFactor * NeutralMean(RatingOf(ratings, homeTeam), RatingOf(ratings, awayTeam))
    ensures g.awayMean == AwayFactor * NeutralMean(RatingOf(ratings, awayTeam), RatingOf(ratings, homeTeam))
  {
    var away := RatingOf(ratings, awayTeam);
    var home := RatingOf(ratings, homeTeam);
    var avgPace := (away.pace + home.pace) / 2.0;
    var awayBase := (away.off / 114.0) * (home.def / 114.0) * 112.0;
    var homeBase := (home.off / 114.0) * (away.def / 114.0) * 112.0;
    var awayPaced := awayBase * (avgPace / 100.0);
    var homePaced := homeBase * (avgPace / 100.0);
    GameProjection(homePaced * 1.025, awayPaced * 0.975)
  }

  /** Standard deviation of a team's score: 11 points for a 110-point mean, proportional. */
  function TeamSd(meanPoints: real): (sd: real)
    ensures 10.0 * sd == meanPoints
  {
    var baseSd := 11.0;
    baseSd * (meanPoints / 110.0)
  }

  /** Covariance matrix of (home score, away score). */
  function Covariance(homeSd: real, awaySd: real, rho: real): (c: seq<seq<real>>)
    ensures |c| == 2 && |c[0]| == 2 && |c[1]| == 2
    ensures c[0][0] == homeSd * homeSd && c[1][1] == awaySd * awaySd
    ensures c[0][1] == c[1][0] == rho * homeSd * awaySd
  {
    [[homeSd * homeSd, rho * homeSd * awaySd],
     [rho * homeSd * awaySd, awaySd * awaySd]]
  }

  ghost function QuadraticForm(c: seq<seq<real>>, x: real, y: real): real
    requires |c| == 2 && |c[0]| == 2 && |c[1]| == 2
  {
    x * x * c[0][0] + x * y * c[0][1] + y * x * c[1][0] + y * y * c[1][1]
  }

  // ---------------------------------------------------------------
  // Properties
  // ---------------------------------------------------------------

  /** Two teams missing from the store project to 114.8 at home and 109.2 away. */
  lemma DefaultMatchup(ratings: map<string, TeamRating>, homeTeam: string, awayTeam: string)
    requires homeTeam !in ratings && awayTeam !in ratings
    ensures ProjectGame(ratings, homeTeam, awayTeam) == GameProjection(114.8, 109.2)
  {
  }

  /** A missing team, home or away, projects exactly as if it had been stored with the default rating. */
  lemma MissingTeamIsDefault(ratings: map<string, TeamRating>, homeTeam: string, awayTeam: string, t: string)
    requires t == homeTeam || t == awayTeam
    requires t !in ratings
    ensures ProjectGame(ratings, homeTeam, awayTeam) == ProjectGame(ratings[t := DefaultTeam], homeTeam, awayTeam)
  {
  }

  /**
   * The formula is symmetric: a team's mean before the court factor is the
   * same whichever side it plays on.
   */
  lemma RoleSwap(ratings: map<string, TeamRating>, a: string, b: string)
    ensures ProjectGame(ratings, a, b).homeMean / HomeFactor == ProjectGame(ratings, b, a).awayMean / AwayFactor
  {
  }

  /** Between identically rated teams with positive ratings, the home side projects higher. */
  lemma HomeCourtAdvantage(ratings: map<string, TeamRating>, homeTeam: string, awayTeam: string)
    requires RatingOf(ratings, homeTeam) == RatingOf(ratings, awayTeam)
    requires RatingOf(ratings, homeTeam).off > 0.0 && RatingOf(ratings, homeTeam).def > 0.0
    requires RatingOf(ratings, homeTeam).pace > 0.0
    ensures ProjectGame(ratings, homeTeam, awayTeam).homeMean > ProjectGame(ratings, homeTeam, awayTeam).awayMean
  {
    var r := RatingOf(ratings, homeTeam);
    var n := NeutralMean(r, r);
    assert r.off * r.def > 0.0;
    assert n > 0.0;
  }

  /** Against a positive defence and positive total pace, more offence means a higher neutral mean. */
  lemma NeutralMeanMonotoneInOffence(us: TeamRating, opp: TeamRating, better: real)
    requires better > us.off && opp.def > 0.0 && us.pace + opp.pace > 0.0
    ensures NeutralMean(us.(off := better), opp) > NeutralMean(us, opp)
  {
    var k := LeaguePoints / (LeagueRating * LeagueRating) * ((us.pace + opp.pace) / 200.0);
    assert k > 0.0;
    var gap := (better - us.off) * opp.def;
    assert gap > 0.0;
    assert NeutralMean(us.(off := better), opp) - NeutralMean(us, opp) == k * gap;
  }

  /** More home offence (other ratings positive) means a higher home projection. */
  lemma HomeMeanMonotoneInOffence(ratings: map<string, TeamRating>, homeTeam: string, awayTeam: string, better: real)
    requires homeTeam != awayTeam
    requires better > RatingOf(ratings, homeTeam).off
    requires RatingOf(ratings, awayTeam).def > 0.0
    requires RatingOf(ratings, homeTeam).pace + RatingOf(ratings, awayTeam).pace > 0.0
    ensures ProjectGame(ratings[homeTeam := RatingOf(ratings, homeTeam).(off := better)], homeTeam, awayTeam).homeMean
            > ProjectGame(ratings, homeTeam, awayTeam).homeMean
  {
    var home := RatingOf(ratings, homeTeam);
    var away := RatingOf(ratings, awayTeam);
    var stronger := ratings[homeTeam := home.(off := better)];
    assert RatingOf(stronger, homeTeam) == home.(off := better);
    assert RatingOf(stronger, awayTeam) == away;
    NeutralMeanMonotoneInOffence(home, away, better);
  }

  /**
   * A strong home side (118/110/102) against 112/113/98 projects to about
   * 117.8 against 103.5.
   */
  lemma StrongHomeExample(ratings: map<string, TeamRating>)
    requires "H" in ratings && ratings["H"] == TeamRating(118.0, 110.0, 102.0, 1.0)
    requires "A" in ratings && ratings["A"] == TeamRating(112.0, 113.0, 98.0, 1.0)
    ensures 117.7 < ProjectGame(ratings, "H", "A").homeMean < 117.8
    ensures 103.5 < ProjectGame(ratings, "H", "A").awayMean < 103.6
  {
  }

  /** The standard deviation is linear in the mean, 11 at a 110-point mean, and positive for positive means. */
  lemma TeamSdProperties(m1: real, m2: real, a: real, b: real)
    ensures TeamSd(a * m1 + b * m2) == a * TeamSd(m1) + b * TeamSd(m2)
    ensures TeamSd(110.0) == 11.0
    ensures m1 > 0.0 ==> TeamSd(m1) > 0.0
  {
  }

  /**
   * With a correlation in [-1, 1] the covariance matrix is positive
   * semidefinite, so it is a valid covariance for the score sampler.
   */
  lemma CovariancePositiveSemidefinite(homeSd: real, awaySd: real, rho: real, x: real, y: real)
    requires -1.0 <= rho <= 1.0
    ensures QuadraticForm(Covariance(homeSd, awaySd, rho), x, y) >= 0.0
  {
    var u := x * homeSd;
    var v := y * awaySd;
    assert QuadraticForm(Covariance(homeSd, awaySd, rho), x, y) == u * u + 2.0 * rho * (u * v) + v * v;
    var w := u * v;
    if w >= 0.0 {
      assert (rho + 1.0) * w >= 0.0;
      assert u * u + v * v - 2.0 * w == (u - v) * (u - v);
      SquareNonNegative(u - v);
    } else {
      assert (1.0 - rho) * w <= 0.0;
      assert u * u + v * v + 2.0 * w == (u + v) * (u + v);
      SquareNonNegative(u + v);
    }
  }

  lemma SquareNonNegative(a: real)
    ensures a * a >= 0.0
  {
    if a < 0.0 {
      assert a * a == (-a) * (-a);
    }
  }

  /** The game's covariance: the two teams' standard deviations and the fixed correlation 0.30. */
  lemma GameCovarianceValid(g: GameProjection, x: real, y: real)
    ensures QuadraticForm(Covariance(TeamSd(g.homeMean), TeamSd(g.awayMean), Rho), x, y) >= 0.0
  {
    CovariancePositiveSemidefinite(TeamSd(g.homeMean), TeamSd(g.awayMean), Rho, x, y);
  }
}
