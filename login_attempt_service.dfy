/**
 * Recording login attempts (append only) and the queries and 24-hour security
 * report built on them. The clock is the parameter `now`, in seconds.
 */
module LoginAttemptService {
  import opened Wrappers
  import opened Seqs
  import opened LoginAttemptEntity
  import opened LoginAttemptRepository

  const SecondsPerHour := 3600
  const ReportWindowHours := 24

  /** The report; `reportPeriod` is the start of the window it covers. */
  datatype SecurityReport = SecurityReport(
    totalAttempts: int,
    successfulAttempts: int,
    failedAttempts: int,
    reportPeriod: int)
  {
    /** Percentage of successful attempts, 0 when there were none (exact, over `real`). */
    function SuccessRate(): real {
      if totalAttempts > 0 then successfulAttempts as real / totalAttempts as real * 100.0 else 0.0
    }

    /** Percentage of failed attempts, 0 when there were none. */
    function FailureRate(): real {
      if totalAttempts > 0 then failedAttempts as real / totalAttempts as real * 100.0 else 0.0
    }
  }

  /** `getSuccessfulLoginAttemptsByUsername`: that user's successful attempts, newest first. */
  function GetSuccessfulLoginAttemptsByUsername(log: seq<LoginAttempt>, username: string): (r: seq<LoginAttempt>)
    ensures NewestFirst(r)
    ensures forall a :: a in r <==> a in log && a.username == username && a.success
  {
    FindByUsernameAndSuccessOrderByAttemptTimeDesc(log, username, true)
  }

  /** `getFailedLoginAttemptsByUsername`: that user's failed attempts, newest first. */
  function GetFailedLoginAttemptsByUsername(log: seq<LoginAttempt>, username: string): (r: seq<LoginAttempt>)
    ensures NewestFirst(r)
    ensures forall a :: a in r <==> a in log && a.username == username && !a.success
  {
    FindByUsernameAndSuccessOrderByAttemptTimeDesc(log, username, false)
  }

  /**
   * `getRecentFailedAttemptsByIp`: the failed attempts from that address at or
   * after `hours` hours before `now`, in insertion order (the query does not sort).
   */
  function GetRecentFailedAttemptsByIp(log: seq<LoginAttempt>, ipAddress: string, hours: int, now: int)
    : (r: seq<LoginAttempt>)
    ensures forall a :: a in r <==>
      a in log && a.ipAddress == ipAddress && !a.success && a.attemptTime >= now - hours * SecondsPerHour
  {
    FindFailedAttemptsByIpSince(log, ipAddress, now - hours * SecondsPerHour)
  }

  /** The successful-attempts getter keeps each of that user's successes exactly as often as the log holds it. */
  lemma SuccessfulCounts(log: seq<LoginAttempt>, username: string)
    ensures forall a :: multiset(GetSuccessfulLoginAttemptsByUsername(log, username))[a]
                     == if a.username == username && a.success then multiset(log)[a] else 0
  {
    UsernameQueryCounts(log, username, true);
  }

  /** The failed-attempts getter keeps each of that user's failures exactly as often as the log holds it. */
  lemma FailedCounts(log: seq<LoginAttempt>, username: string)
    ensures forall a :: multiset(GetFailedLoginAttemptsByUsername(log, username))[a]
                     == if a.username == username && !a.success then multiset(log)[a] else 0
  {
    UsernameQueryCounts(log, username, false);
  }

  /** The per-address getter keeps each recent failure from that address exactly as often as the log holds it. */
  lemma RecentFailedByIpCounts(log: seq<LoginAttempt>, ipAddress: string, hours: int, now: int)
    ensures forall a :: multiset(GetRecentFailedAttemptsByIp(log, ipAddress, hours, now))[a]
                     == if a.ipAddress == ipAddress && !a.success && a.attemptTime >= now - hours * SecondsPerHour
                        then multiset(log)[a] else 0
  {
    WindowQueryCounts(log, ipAddress, now - hours * SecondsPerHour);
  }

  /** `generateSecurityReport`: counts over the 24 hours before `now`. */
  function GenerateSecurityReport(log: seq<LoginAttempt>, now: int): SecurityReport {
    var last24Hours := now - ReportWindowHours * SecondsPerHour;
    var recentFailedAttempts := FindFailedAttemptsSince(log, last24Hours);
    var recentAttempts := FindRecentAttempts(log, last24Hours);
    var totalAttempts := |recentAttempts|;
    var failedAttempts := |recentFailedAttempts|;
    SecurityReport(totalAttempts, totalAttempts - failedAttempts, failedAttempts, last24Hours)
  }

  /** The successful attempts inside the window starting at `since`. */
  function SucceededSince(log: seq<LoginAttempt>, since: int): seq<LoginAttempt> {
    Filter(log, (a: LoginAttempt) => a.success && a.attemptTime >= since)
  }

  /**
   * The report's window starts 24 hours before `now`; its total counts the
   * attempts in the window, its failures the failed ones, and its successes,
   * total minus failures, are exactly the successful ones in the window, so
   * never negative.
   */
  lemma ReportCounts(log: seq<LoginAttempt>, now: int)
    ensures var r := GenerateSecurityReport(log, now);
      && r.reportPeriod == now - 24 * 3600
      && r.totalAttempts == |FindRecentAttempts(log, r.reportPeriod)|
      && r.failedAttempts == |FindFailedAttemptsSince(log, r.reportPeriod)|
      && r.successfulAttempts == |SucceededSince(log, r.reportPeriod)|
      && 0 <= r.successfulAttempts && 0 <= r.failedAttempts
      && r.successfulAttempts + r.failedAttempts == r.totalAttempts
  {
    FailedWithinRecent(log, now - ReportWindowHours * SecondsPerHour);
  }

  /** With at least one attempt the two rates are percentages summing to 100; with none both are 0. */
  lemma RatesComplement(r: SecurityReport)
    requires 0 <= r.successfulAttempts && 0 <= r.failedAttempts
    requires r.successfulAttempts + r.failedAttempts == r.totalAttempts
    ensures r.totalAttempts == 0 ==> r.SuccessRate() == 0.0 && r.FailureRate() == 0.0
    ensures r.totalAttempts > 0 ==> r.SuccessRate() + r.FailureRate() == 100.0
    ensures 0.0 <= r.SuccessRate() <= 100.0 && 0.0 <= r.FailureRate() <= 100.0
  {
    if r.totalAttempts > 0 {
      var t, s, f := r.totalAttempts as real, r.successfulAttempts as real, r.failedAttempts as real;
      var ps, pf := s / t, f / t;
      assert ps * t == s && pf * t == f;
      calc {
        (ps + pf) * t;
        ps * t + pf * t;
        s + f;
        1.0 * t;
      }
      assert ps + pf == 1.0;
      assert 0.0 <= ps && 0.0 <= pf;
    }
  }

  /** Every generated report's rates are percentages that sum to 100 when there were attempts. */
  lemma ReportRates(log: seq<LoginAttempt>, now: int)
    ensures var r := GenerateSecurityReport(log, now);
      && (r.totalAttempts > 0 ==> r.SuccessRate() + r.FailureRate() == 100.0)
      && (r.totalAttempts == 0 ==> r.SuccessRate() == 0.0 && r.FailureRate() == 0.0)
  {
    ReportCounts(log, now);
    RatesComplement(GenerateSecurityReport(log, now));
  }

  /** Ten attempts of which three failed give rates of 70 and 30 percent. */
  lemma ExampleRates(period: int)
    ensures SecurityReport(10, 7, 3, period).SuccessRate() == 70.0
    ensures SecurityReport(10, 7, 3, period).FailureRate() == 30.0
  {
  }

  /**
   * Recording an attempt stamped `now` adds exactly one attempt to the next
   * report taken at `now`, and one failure exactly when it failed.
   */
  lemma RecordedAttemptIsReported(log: seq<LoginAttempt>, a: LoginAttempt, now: int)
    requires a.attemptTime == now
    ensures GenerateSecurityReport(log + [a], now).totalAttempts
         == GenerateSecurityReport(log, now).totalAttempts + 1
    ensures GenerateSecurityReport(log + [a], now).failedAttempts
         == GenerateSecurityReport(log, now).failedAttempts + (if a.success then 0 else 1)
  {
    AppendCounts(log, a, now - ReportWindowHours * SecondsPerHour);
  }

  /** The attempt store: an append-only log. */
  class LoginAttemptService {
    var attempts: seq<LoginAttempt>

    constructor (attempts: seq<LoginAttempt>)
      ensures this.attempts == attempts
    {
      this.attempts := attempts;
    }

    /** `recordLoginAttempt` with four arguments: appends one attempt stamped `now`. */
    method RecordLoginAttempt(username: string, ipAddress: string, success: bool, userAgent: string, now: int)
      modifies this
      ensures attempts == old(attempts) + [NewAttempt(username, ipAddress, success, userAgent, now)]
    {
      var attempt := NewAttempt(username, ipAddress, success, userAgent, now);
      attempts := attempts + [attempt];
    }

    /** `recordLoginAttempt` with a failure reason: the same attempt, carrying `failureReason`. */
    method RecordLoginAttemptWithReason(username: string, ipAddress: string, success: bool, userAgent: string,
                                        failureReason: Option<string>, now: int)
      modifies this
      ensures |attempts| == |old(attempts)| + 1 && attempts[..|old(attempts)|] == old(attempts)
      ensures attempts[|old(attempts)|]
           == NewAttempt(username, ipAddress, success, userAgent, now).(failureReason := failureReason)
    {
      var attempt := NewAttempt(username, ipAddress, success, userAgent, now);
      attempt := attempt.(failureReason := failureReason);
      attempts := attempts + [attempt];
    }
  }
}
